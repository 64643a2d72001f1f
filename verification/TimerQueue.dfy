/** The timer queue: events ordered by arrival time, and one timerfd that is armed for the first of
    them. The clock is a parameter: every reading of it is an argument of the operation. */
module TimerQueue {

  /** A TimerEvent object is known by its name; the store of a timer maps names to fields. */
  type EventId = nat

  datatype Event = Event(arrive: int, interval: int, repeats: bool, cancelled: bool)

  /** An entry of the multimap. The serial number is a history variable: entries are numbered in
      the order they were put in. */
  datatype Entry = Entry(key: int, id: EventId, serial: nat)

  /** The timerfd: set at a time for a deadline, or fired and not yet read. */
  datatype TimerFd = Disarmed | Armed(at: int, deadline: int) | Fired

  datatype TimerState = TimerState(events: map<EventId, Event>, pending: seq<Entry>, fd: TimerFd, serial: nat) {

    predicate Known() {
      forall e :: e in pending ==> e.id in events && e.serial < serial
    }

    /** The multimap is ordered by key, and by age among equal keys. */
    predicate Ordered() {
      InOrder(pending)
    }

    /** How often each event is in the multimap. */
    function Bag(): multiset<EventId> {
      multiset(Ids(pending))
    }

    /** No repeating event is pending twice. */
    ghost predicate RepeatsOnce() {
      forall id :: id in events && events[id].repeats ==> Bag()[id] <= 1
    }

    /** The key an event was put in under is still its arrival time. */
    predicate KeysMatch() {
      Known() && forall e :: e in pending ==> e.key == events[e.id].arrive
    }

    ghost predicate Sound() {
      Ordered() && RepeatsOnce() && KeysMatch()
    }
  }

  predicate Before(a: Entry, b: Entry) {
    a.key < b.key || (a.key == b.key && a.serial < b.serial)
  }

  predicate InOrder(p: seq<Entry>) {
    forall i, j :: 0 <= i < j < |p| ==> Before(p[i], p[j])
  }

  /* ----- The multimap ----- */

  /** upper_bound: how many entries at the front have a key up to the given one. */
  function UpTo(p: seq<Entry>, key: int): (k: nat)
    ensures k <= |p| && forall i :: 0 <= i < k ==> p[i].key <= key
    ensures k < |p| ==> p[k].key > key
  {
    if p == [] || p[0].key > key then 0 else 1 + UpTo(p[1..], key)
  }

  /** emplace puts an entry behind those with the same key. */
  function Insert(p: seq<Entry>, e: Entry): seq<Entry> {
    var k := UpTo(p, e.key);
    p[..k] + [e] + p[k..]
  }

  function Ids(p: seq<Entry>): (ids: seq<EventId>)
    ensures |ids| == |p| && forall i :: 0 <= i < |p| ==> ids[i] == p[i].id
  {
    seq(|p|, i requires 0 <= i < |p| => p[i].id)
  }

  lemma InsertKeepsIds(p: seq<Entry>, e: Entry)
    ensures multiset(Ids(Insert(p, e))) == multiset(Ids(p)) + multiset{e.id}
  {
    var k := UpTo(p, e.key);
    assert Ids(Insert(p, e)) == Ids(p[..k]) + [e.id] + Ids(p[k..]);
    assert Ids(p) == Ids(p[..k]) + Ids(p[k..]);
  }

  /* ----- The timerfd ----- */

  datatype TimeSpec = TimeSpec(sec: int, nsec: int)

  function SpecOf(interval: int): TimeSpec
    requires interval > 0
  {
    TimeSpec(interval / 1000, interval % 1000 * 1000000)
  }

  /** timerfd_settime with a relative time; a zero time disarms. */
  function SetTime(now: int, ts: TimeSpec): TimerFd {
    if ts.sec == 0 && ts.nsec == 0 then Disarmed
    else Armed(now, now + ts.sec * 1000 + ts.nsec / 1000000)
  }

  /** The split into seconds and nanoseconds is exact, in range, and never zero: arming for a
      positive interval never disarms. */
  lemma ArmingIsExact(now: int, interval: int)
    requires interval > 0
    ensures var ts := SpecOf(interval);
            && 0 <= ts.sec && 0 <= ts.nsec < 1000000000
            && ts.sec * 1000000000 + ts.nsec == interval * 1000000
            && SetTime(now, ts) == Armed(now, now + interval)
  {
  }

  /** The wait for an event that arrives then: 100 ms if that is not in the future. */
  function Wait(arrive: int, now: int): (w: int)
    ensures w > 0
  {
    if arrive > now then arrive - now else 100
  }

  /* ----- The operations ----- */

  /** Timer::reset_arrive_time */
  function Rearm(t: TimerState, now: int): TimerState
    requires t.Known()
  {
    if t.pending == [] then t
    else t.(fd := SetTime(now, SpecOf(Wait(t.events[t.pending[0].id].arrive, now))))
  }

  /** add_time_event */
  function Add(t: TimerState, id: EventId, now: int): (r: TimerState)
    requires t.Known() && id in t.events
    ensures r.Known() && r.events == t.events
  {
    var reset := t.pending == [] || t.events[t.pending[0].id].arrive > t.events[id].arrive;
    var e := Entry(t.events[id].arrive, id, t.serial);
    var t1 := t.(pending := Insert(t.pending, e), serial := t.serial + 1);
    if reset then Rearm(t1, now) else t1
  }

  /** Where delete_time_event finds the entry: the first one with the key and the name. */
  function FindEntry(p: seq<Entry>, key: int, id: EventId): (k: nat)
    ensures k <= |p|
    ensures k < |p| ==> p[k].key == key && p[k].id == id
    ensures forall i :: 0 <= i < k ==> !(p[i].key == key && p[i].id == id)
  {
    if p == [] || (p[0].key == key && p[0].id == id) then 0 else 1 + FindEntry(p[1..], key, id)
  }

  lemma FoundAt(p: seq<Entry>, key: int, id: EventId, k: nat)
    requires k <= |p| && (k < |p| ==> p[k].key == key && p[k].id == id)
    requires forall i :: 0 <= i < k ==> p[i].key != key || p[i].id != id
    ensures FindEntry(p, key, id) == k
  {
  }

  function Cancel(t: TimerState, id: EventId): TimerState
    requires id in t.events
  {
    t.(events := t.events[id := t.events[id].(cancelled := true)])
  }

  /** delete_time_event up to its second lock */
  function Delete(t: TimerState, id: EventId): (r: TimerState)
    requires t.Known() && id in t.events
    ensures r.Known()
  {
    var k := FindEntry(t.pending, t.events[id].arrive, id);
    var t1 := Cancel(t, id);
    if k < |t.pending| then t1.(pending := t.pending[..k] + t.pending[k + 1..]) else t1
  }

  /** The loop of on_timer over the front of the multimap, up to the first entry in the future. */
  function Collect(p: seq<Entry>, events: map<EventId, Event>, now: int): (ids: seq<EventId>)
    requires forall e :: e in p ==> e.id in events
    ensures forall i :: 0 <= i < |ids| ==> ids[i] in events
  {
    if p == [] || p[0].key > now then []
    else
      var rest := Collect(p[1..], events, now);
      if events[p[0].id].cancelled then rest else [p[0].id] + rest
  }

  /** One step of that loop. */
  lemma CollectNext(p: seq<Entry>, it: nat, events: map<EventId, Event>, now: int)
    requires it <= |p| && forall e :: e in p ==> e.id in events
    ensures it < |p| && p[it].key <= now ==>
              && p[it] in p
              && UpTo(p[it..], now) == 1 + UpTo(p[it + 1..], now)
              && Collect(p[it..], events, now)
                 == (if events[p[it].id].cancelled then [] else [p[it].id]) + Collect(p[it + 1..], events, now)
    ensures it == |p| || p[it].key > now ==> UpTo(p[it..], now) == 0 && Collect(p[it..], events, now) == []
  {
    if it < |p| {
      assert p[it..][0] == p[it] && p[it..][1..] == p[it + 1..];
    }
  }

  /** The loop has come to entry it and has collected tasks. */
  predicate Collected(p: seq<Entry>, it: nat, tasks: seq<EventId>, events: map<EventId, Event>, now: int) {
    && it <= |p| && (forall e :: e in p ==> e.id in events)
    && UpTo(p, now) == it + UpTo(p[it..], now)
    && Collect(p, events, now) == tasks + Collect(p[it..], events, now)
  }

  lemma CollectedStart(p: seq<Entry>, events: map<EventId, Event>, now: int)
    requires forall e :: e in p ==> e.id in events
    ensures Collected(p, 0, [], events, now)
  {
    hide UpTo, Collect;
    assert p[0..] == p;
  }

  lemma CollectedStep(p: seq<Entry>, it: nat, tasks: seq<EventId>, events: map<EventId, Event>, now: int)
    requires Collected(p, it, tasks, events, now) && it < |p| && p[it].key <= now
    ensures p[it].id in events
    ensures Collected(p, it + 1, tasks + if events[p[it].id].cancelled then [] else [p[it].id], events, now)
  {
    hide UpTo, Collect;
    CollectNext(p, it, events, now);
  }

  lemma CollectedAll(p: seq<Entry>, it: nat, tasks: seq<EventId>, events: map<EventId, Event>, now: int)
    requires Collected(p, it, tasks, events, now) && (it == |p| || p[it].key > now)
    ensures (forall e :: e in p ==> e.id in events) && tasks == Collect(p, events, now) && it == UpTo(p, now)
  {
    hide UpTo, Collect;
    CollectNext(p, it, events, now);
  }

  /** TimerEvent::reset_arrive_time */
  function Reschedule(t: TimerState, id: EventId, now: int): TimerState
    requires id in t.events
  {
    t.(events := t.events[id := t.events[id].(arrive := now + t.events[id].interval)])
  }

  /** The re-insertion of the repeating events of a batch; two clock readings per event. */
  function Readd(t: TimerState, ids: seq<EventId>, clock: nat -> int, k: nat): (r: TimerState)
    requires t.Known() && forall i :: 0 <= i < |ids| ==> ids[i] in t.events
    ensures r.Known() && r.events.Keys == t.events.Keys
    decreases |ids|
  {
    if ids == [] then t
    else if t.events[ids[0]].repeats then
      Readd(Add(Reschedule(t, ids[0], clock(k)), ids[0], clock(k + 1)), ids[1..], clock, k + 2)
    else Readd(t, ids[1..], clock, k + 2)
  }

  datatype Batch = Batch(timer: TimerState, ran: seq<EventId>)

  /** The timer after the callback has drained the timerfd and erased the due entries. */
  function RestOf(t: TimerState, now: int): TimerState {
    t.(fd := if t.fd.Fired? then Disarmed else t.fd, pending := t.pending[UpTo(t.pending, now)..])
  }

  /** on_timer; clock(i) is the i-th reading of the clock. The tasks run last, and what they do to
      the timer are operations of their own. */
  function OnTimer(t: TimerState, clock: nat -> int): (r: Batch)
    requires t.Known()
    ensures r.timer.Known() && r.timer.events.Keys == t.events.Keys
  {
    var now := clock(0);
    var ran := Collect(t.pending, t.events, now);
    var readded := Readd(RestOf(t, now), ran, clock, 1);
    Batch(Rearm(readded, clock(2 * |ran| + 1)), ran)
  }

  ghost predicate Monotone(clock: nat -> int) {
    forall i: nat, j: nat :: i <= j ==> clock(i) <= clock(j)
  }

  /* ----- What one batch does ----- */

  /** The reference: all entries of the multimap that are due and not cancelled. */
  function Due(p: seq<Entry>, events: map<EventId, Event>, now: int): seq<Entry>
    requires forall e :: e in p ==> e.id in events
  {
    if p == [] then []
    else
      var rest := Due(p[1..], events, now);
      if p[0].key <= now && !events[p[0].id].cancelled then [p[0]] + rest else rest
  }

  /** All entries that are not due. */
  function Undue(p: seq<Entry>, now: int): seq<Entry> {
    if p == [] then []
    else if p[0].key > now then [p[0]] + Undue(p[1..], now)
    else Undue(p[1..], now)
  }

  /** Stopping at the first entry in the future misses nothing. */
  lemma {:induction false} CollectTakesAllDue(p: seq<Entry>, events: map<EventId, Event>, now: int)
    requires forall e :: e in p ==> e.id in events
    requires forall i, j :: 0 <= i < j < |p| ==> p[i].key <= p[j].key
    ensures Collect(p, events, now) == Ids(Due(p, events, now))
    decreases |p|
  {
    if p != [] {
      var rest := Due(p[1..], events, now);
      CollectTakesAllDue(p[1..], events, now);
      if p[0].key <= now && !events[p[0].id].cancelled {
        IdsSplit([p[0]], rest);
      } else if p[0].key > now {
        assert forall i :: 0 <= i < |p[1..]| ==> p[1..][i].key > now;
        assert rest == [];
      }
    }
  }

  lemma {:induction false} RestIsUndue(p: seq<Entry>, now: int)
    requires forall i, j :: 0 <= i < j < |p| ==> p[i].key <= p[j].key
    ensures p[UpTo(p, now)..] == Undue(p, now)
    decreases |p|
  {
    if p != [] {
      RestIsUndue(p[1..], now);
      if p[0].key > now && |p| > 1 {
        assert p[1].key > now;
      }
    }
  }

  lemma {:induction false} DueInOrder(p: seq<Entry>, events: map<EventId, Event>, now: int)
    requires forall e :: e in p ==> e.id in events
    requires InOrder(p)
    ensures InOrder(Due(p, events, now))
    ensures forall e :: e in Due(p, events, now) <==> e in p && e.key <= now && !events[e.id].cancelled
    decreases |p|
  {
    if p != [] {
      DueInOrder(p[1..], events, now);
      var d, rest := Due(p, events, now), Due(p[1..], events, now);
      forall i | 0 <= i < |rest| ensures Before(p[0], rest[i]) {
        assert rest[i] in p[1..];
        var j :| 0 <= j < |p[1..]| && p[1..][j] == rest[i];
        assert p[j + 1] == rest[i];
      }
      if d != rest {
        assert d == [p[0]] + rest;
      }
    }
  }

  lemma IdsSplit(a: seq<Entry>, b: seq<Entry>)
    ensures Ids(a + b) == Ids(a) + Ids(b)
  {
  }

  lemma {:induction false} CollectedAreLive(p: seq<Entry>, events: map<EventId, Event>, now: int)
    requires forall e :: e in p ==> e.id in events
    ensures forall id :: id in Collect(p, events, now) ==> !events[id].cancelled
    decreases |p|
  {
    if p != [] && p[0].key <= now {
      CollectedAreLive(p[1..], events, now);
    }
  }

  /** A batch takes events from the front, none more often than it is there. */
  lemma {:induction false} CollectedAreDue(p: seq<Entry>, events: map<EventId, Event>, now: int)
    requires forall e :: e in p ==> e.id in events
    ensures multiset(Collect(p, events, now)) <= multiset(Ids(p[..UpTo(p, now)]))
    decreases |p|
  {
    hide UpTo, Collect;
    CollectNext(p, 0, events, now);
    assert p[0..] == p;
    if p != [] && p[0].key <= now {
      CollectedAreDue(p[1..], events, now);
      IdsOfPrefix(p, UpTo(p, now));
      OneMore(p[0].id, Collect(p[1..], events, now), Ids(p[1..][..UpTo(p, now) - 1]));
    }
  }

  lemma IdsOfPrefix(p: seq<Entry>, k: nat)
    requires 0 < k <= |p|
    ensures Ids(p[..k]) == [p[0].id] + Ids(p[1..][..k - 1])
  {
  }

  lemma OneMore(id: EventId, a: seq<EventId>, b: seq<EventId>)
    requires multiset(a) <= multiset(b)
    ensures multiset(a) <= multiset([id] + b) && multiset([id] + a) <= multiset([id] + b)
  {
    assert multiset([id] + a) == multiset{id} + multiset(a);
    assert multiset([id] + b) == multiset{id} + multiset(b);
  }

  function Repeating(events: map<EventId, Event>, ids: seq<EventId>): seq<EventId>
    requires forall i :: 0 <= i < |ids| ==> ids[i] in events
  {
    if ids == [] then []
    else if events[ids[0]].repeats then [ids[0]] + Repeating(events, ids[1..])
    else Repeating(events, ids[1..])
  }

  /** An event may be added while it is pending, unless it repeats. */
  ghost predicate CanAdd(t: TimerState, id: EventId) {
    id in t.events && (t.events[id].repeats ==> id !in t.Bag())
  }

  lemma InsertedIsSound(t: TimerState, id: EventId)
    requires t.Sound() && CanAdd(t, id)
    ensures var e := Entry(t.events[id].arrive, id, t.serial);
            var r := t.(pending := Insert(t.pending, e), serial := t.serial + 1);
            r.Sound() && r.Bag() == t.Bag() + multiset{id}
  {
    hide Insert, InOrder;
    var e := Entry(t.events[id].arrive, id, t.serial);
    InsertKeepsIds(t.pending, e);
    InsertKeepsOrder(t.pending, e);
    InsertMembers(t.pending, e);
    assert forall x :: (t.Bag() + multiset{id})[x] == t.Bag()[x] + multiset{id}[x];
  }

  lemma InsertMembers(p: seq<Entry>, e: Entry)
    ensures forall x :: x in Insert(p, e) <==> x in p || x == e
  {
    var k := UpTo(p, e.key);
    assert p == p[..k] + p[k..];
  }

  lemma AddIsSound(t: TimerState, id: EventId, now: int)
    requires t.Sound() && CanAdd(t, id)
    ensures Add(t, id, now).Sound()
    ensures Add(t, id, now).Bag() == t.Bag() + multiset{id}
  {
    hide Insert;
    InsertedIsSound(t, id);
  }

  lemma InsertKeepsOrder(p: seq<Entry>, e: Entry)
    requires InOrder(p)
    requires forall x :: x in p ==> x.serial < e.serial
    ensures InOrder(Insert(p, e))
  {
    var q := Insert(p, e);
    var k := UpTo(p, e.key);
    forall i, j | 0 <= i < j < |q| ensures Before(q[i], q[j]) {
      if i < k {
        assert q[i] == p[i] && p[i] in p;
      } else if i > k {
        assert q[i] == p[i - 1];
      }
      if j > k {
        assert q[j] == p[j - 1];
        assert p[k].key <= p[j - 1].key;
      }
    }
  }

  /** Re-inserting the events of a batch keeps the queue sound and puts in exactly the repeating
      ones. */
  lemma {:induction false} ReaddIsSound(t: TimerState, ids: seq<EventId>, clock: nat -> int, k: nat)
    requires t.Sound() && forall i :: 0 <= i < |ids| ==> ids[i] in t.events
    requires RoomFor(t, ids)
    ensures Readd(t, ids, clock, k).Sound()
    ensures Readd(t, ids, clock, k).Bag() == t.Bag() + multiset(Repeating(t.events, ids))
    decreases |ids|
  {
    hide Insert, InOrder, Ids, Add, TimerState.RepeatsOnce, RoomFor;
    if ids != [] {
      var id, rest := ids[0], ids[1..];
      RoomForFirst(t, ids);
      if t.events[id].repeats {
        var t1 := Reschedule(t, id, clock(k));
        RescheduleIsSound(t, id, clock(k));
        var t2 := Add(t1, id, clock(k + 1));
        AddIsSound(t1, id, clock(k + 1));
        RoomForRest(t, t2, ids);
        ReaddIsSound(t2, rest, clock, k + 2);
        RepeatingDependsOnFlags(t.events, t2.events, rest);
      } else {
        ReaddIsSound(t, rest, clock, k + 2);
      }
    }
  }

  /** Each repeating event is pending at most once even if these are put in. */
  ghost predicate RoomFor(t: TimerState, ids: seq<EventId>) {
    forall id :: id in t.events && t.events[id].repeats ==> t.Bag()[id] + multiset(ids)[id] <= 1
  }

  lemma RoomForFirst(t: TimerState, ids: seq<EventId>)
    requires ids != [] && RoomFor(t, ids)
    ensures ids[0] in t.events && t.events[ids[0]].repeats ==> t.Bag()[ids[0]] == 0
    ensures RoomFor(t, ids[1..])
  {
    hide Ids;
    CountFirst(ids);
  }

  lemma RoomForRest(t: TimerState, r: TimerState, ids: seq<EventId>)
    requires ids != [] && RoomFor(t, ids) && r.Bag() == t.Bag() + multiset{ids[0]}
    requires forall id :: id in r.events ==> id in t.events && r.events[id].repeats == t.events[id].repeats
    ensures RoomFor(r, ids[1..])
  {
    hide Ids;
    CountFirst(ids);
  }

  lemma CountFirst(ids: seq<EventId>)
    requires ids != []
    ensures forall x :: multiset(ids)[x] == multiset{ids[0]}[x] + multiset(ids[1..])[x]
  {
    assert ids == [ids[0]] + ids[1..];
  }

  /** It reschedules each of them by its interval from a later reading, and changes no other. */
  lemma {:induction false} ReaddReschedules(t: TimerState, ids: seq<EventId>, clock: nat -> int, k: nat,
                                            now: int, last: int)
    requires t.Known() && forall i :: 0 <= i < |ids| ==> ids[i] in t.events
    requires forall id :: id in t.events && t.events[id].repeats ==> multiset(ids)[id] <= 1
    requires forall j: nat :: k <= j <= k + 2 * |ids| ==> now <= clock(j) <= last
    ensures forall id :: id in t.events ==>
              Rescheduled(t.events[id], Readd(t, ids, clock, k).events[id], id in ids, now, last)
    decreases |ids|
  {
    if ids != [] {
      var id, rest := ids[0], ids[1..];
      CountFirst(ids);
      assert t.events[id].repeats ==> id !in rest by { assert multiset(ids)[id] == 1 + multiset(rest)[id]; }
      var t1 := if t.events[id].repeats then Add(Reschedule(t, id, clock(k)), id, clock(k + 1)) else t;
      ReaddReschedules(t1, rest, clock, k + 2, now, last);
    }
  }

  /** Putting events back arms the timerfd or leaves it as it is; the kernel alone makes it fire. */
  lemma {:induction false} ReaddOnlyArms(t: TimerState, ids: seq<EventId>, clock: nat -> int, k: nat)
    requires t.Known() && forall i :: 0 <= i < |ids| ==> ids[i] in t.events
    ensures var r := Readd(t, ids, clock, k);
            && (r.fd.Fired? ==> t.fd.Fired?)
            && (r.pending == [] ==> r.fd == t.fd && t.pending == [])
    decreases |ids|
  {
    hide Add;
    if ids != [] {
      if t.events[ids[0]].repeats {
        var t0 := Reschedule(t, ids[0], clock(k));
        AddOnlyArms(t0, ids[0], clock(k + 1));
        ReaddOnlyArms(Add(t0, ids[0], clock(k + 1)), ids[1..], clock, k + 2);
      } else {
        ReaddOnlyArms(t, ids[1..], clock, k + 2);
      }
    }
  }

  lemma AddOnlyArms(t: TimerState, id: EventId, now: int)
    requires t.Known() && id in t.events
    ensures Add(t, id, now).pending != [] && (Add(t, id, now).fd.Fired? ==> t.fd.Fired?)
  {
  }

  /** The callback reads the timerfd, so that it is not ready for reading again when it returns. */
  lemma BatchDrainsTimer(t: TimerState, clock: nat -> int)
    requires t.Known()
    ensures !OnTimer(t, clock).timer.fd.Fired?
    ensures OnTimer(t, clock).timer.pending == [] && t.fd.Fired? ==> OnTimer(t, clock).timer.fd == Disarmed
  {
    hide Readd, Collect, UpTo;
    var ran := Collect(t.pending, t.events, clock(0));
    ReaddOnlyArms(RestOf(t, clock(0)), ran, clock, 1);
  }

  /** What a batch between the clock readings now and last does to the fields of an event, depending
      on whether it ran: its arrival time is its interval after a reading in between. */
  predicate Rescheduled(before: Event, after: Event, ran: bool, now: int, last: int) {
    if ran && before.repeats
    then after == before.(arrive := after.arrive) && now <= after.arrive - before.interval <= last
    else after == before
  }

  lemma RescheduleIsSound(t: TimerState, id: EventId, now: int)
    requires t.Sound() && id in t.events && id !in t.Bag()
    ensures Reschedule(t, id, now).Sound() && Reschedule(t, id, now).Bag() == t.Bag()
  {
    forall e | e in t.pending ensures e.id != id {
      var i :| 0 <= i < |t.pending| && t.pending[i] == e;
      assert Ids(t.pending)[i] == e.id;
    }
  }

  lemma {:induction false} RepeatingDependsOnFlags(a: map<EventId, Event>, b: map<EventId, Event>, ids: seq<EventId>)
    requires forall i :: 0 <= i < |ids| ==> ids[i] in a && ids[i] in b && a[ids[i]].repeats == b[ids[i]].repeats
    ensures Repeating(a, ids) == Repeating(b, ids)
    decreases |ids|
  {
    if ids != [] {
      RepeatingDependsOnFlags(a, b, ids[1..]);
    }
  }

  /** on_timer, for every sound queue and every clock: it runs exactly the due events that are not
      cancelled, by arrival time and by age on ties; afterwards exactly the undue events and the
      repeating ones it ran are pending, each of those moved past the reading by its interval; and
      the queue is sound again. */
  lemma BatchIsCorrect(t: TimerState, clock: nat -> int)
    requires t.Sound() && Monotone(clock)
    ensures var r, now := OnTimer(t, clock), clock(0);
            var due := Due(t.pending, t.events, now);
            && r.timer.Sound()
            && r.ran == Ids(due)
            && InOrder(due)
            && r.timer.Bag() == multiset(Ids(Undue(t.pending, now))) + multiset(Repeating(t.events, r.ran))
            && (forall id :: id in t.events ==>
                  Rescheduled(t.events[id], r.timer.events[id], id in r.ran, now, clock(2 * |r.ran| + 1)))
            && Watched(r.timer)
            && (r.timer.pending != [] ==> r.timer.fd.Armed? && r.timer.fd.at == clock(2 * |r.ran| + 1))
  {
    hide Readd, Collect, Due, Undue, UpTo, Repeating, Rescheduled, Rearm, Ids, InOrder, Watched, RoomFor;
    var now := clock(0);
    var ran := Collect(t.pending, t.events, now);
    OrderedKeys(t.pending);
    CollectTakesAllDue(t.pending, t.events, now);
    RestIsUndue(t.pending, now);
    DueInOrder(t.pending, t.events, now);
    var rest := RestOf(t, now);
    RestIsSound(t, now);
    ReaddIsSound(rest, ran, clock, 1);
    RoomForEach(rest, ran);
    ReaddReschedules(rest, ran, clock, 1, now, clock(2 * |ran| + 1));
    RearmKeepsSound(Readd(rest, ran, clock, 1), clock(2 * |ran| + 1));
    RearmWatches(Readd(rest, ran, clock, 1), clock(2 * |ran| + 1));
  }

  lemma RoomForEach(t: TimerState, ids: seq<EventId>)
    requires RoomFor(t, ids)
    ensures forall id :: id in t.events && t.events[id].repeats ==> multiset(ids)[id] <= 1
  {
    hide Ids;
    assert forall id :: multiset(ids)[id] <= t.Bag()[id] + multiset(ids)[id];
  }

  lemma RearmKeepsSound(t: TimerState, now: int)
    requires t.Sound()
    ensures var r := Rearm(t, now); r.Sound() && r.Bag() == t.Bag() && r.events == t.events && r.pending == t.pending
  {
    hide Ids, InOrder, SetTime, SpecOf;
  }

  lemma RestIsSound(t: TimerState, now: int)
    requires t.Sound()
    ensures RestOf(t, now).Sound()
    ensures RoomFor(RestOf(t, now), Collect(t.pending, t.events, now))
  {
    hide Collect;
    var k := UpTo(t.pending, now);
    var rest := RestOf(t, now);
    RemoveRange(t, 0, k, rest);
    CollectedAreDue(t.pending, t.events, now);
    assert t.pending[0..k] == t.pending[..k];
    assert forall id :: t.Bag()[id] == rest.Bag()[id] + multiset(Ids(t.pending[..k]))[id];
  }

  /** Taking a range out of the multimap. */
  lemma RemoveRange(t: TimerState, i: nat, j: nat, r: TimerState)
    requires t.Sound() && i <= j <= |t.pending|
    requires r.pending == t.pending[..i] + t.pending[j..] && r.serial == t.serial
    requires r.events.Keys == t.events.Keys
    requires forall id :: id in t.events ==>
               r.events[id].arrive == t.events[id].arrive && r.events[id].repeats == t.events[id].repeats
    ensures r.Sound()
    ensures t.Bag() == r.Bag() + multiset(Ids(t.pending[i..j]))
  {
    hide InOrder, Ids;
    BagWithoutRange(t.pending, i, j);
    OrderWithoutRange(t.pending, i, j);
    assert forall id :: t.Bag()[id] == r.Bag()[id] + multiset(Ids(t.pending[i..j]))[id];
    assert forall e :: e in r.pending ==> e in t.pending;
  }

  lemma OrderWithoutRange(p: seq<Entry>, i: nat, j: nat)
    requires InOrder(p) && i <= j <= |p|
    ensures InOrder(p[..i] + p[j..])
  {
    var q := p[..i] + p[j..];
    assert forall k :: 0 <= k < i ==> q[k] == p[k];
    assert forall k :: i <= k < |q| ==> q[k] == p[k + j - i];
  }

  lemma BagWithoutRange(p: seq<Entry>, i: nat, j: nat)
    requires i <= j <= |p|
    ensures multiset(Ids(p)) == multiset(Ids(p[..i] + p[j..])) + multiset(Ids(p[i..j]))
  {
    var a, b, c := p[..i], p[i..j], p[j..];
    assert p == a + b + c;
    IdsSplit(a + b, c);
    IdsSplit(a, b);
    IdsSplit(a, c);
  }

  /* ----- The timer never forgets ----- */

  function Max(a: int, b: int): int {
    if a < b then b else a
  }

  /** If anything is pending, the timerfd has fired, or will fire by the arrival of each pending
      event, or 100 ms after it was armed if that is later. */
  ghost predicate Watched(t: TimerState) {
    t.Known() && (t.pending != [] ==>
      t.fd.Fired?
      || (t.fd.Armed? && forall e :: e in t.pending ==>
            t.fd.deadline <= Max(t.events[e.id].arrive, t.fd.at + 100)))
  }

  lemma RearmWatches(t: TimerState, now: int)
    requires t.Sound()
    ensures Watched(Rearm(t, now))
    ensures t.pending != [] ==>
              var first := t.events[t.pending[0].id].arrive;
              && (forall e :: e in t.pending ==> first <= t.events[e.id].arrive)
              && Rearm(t, now).fd == Armed(now, if first > now then first else now + 100)
  {
    if t.pending != [] {
      var first := t.events[t.pending[0].id].arrive;
      ArmingIsExact(now, Wait(first, now));
      forall e | e in t.pending ensures first <= t.events[e.id].arrive {
        assert t.pending[0] in t.pending;
        var i :| 0 <= i < |t.pending| && t.pending[i] == e;
        assert i > 0 ==> Before(t.pending[0], t.pending[i]);
      }
    }
  }

  lemma AddKeepsWatch(t: TimerState, id: EventId, now: int)
    requires t.Sound() && Watched(t) && CanAdd(t, id)
    ensures Watched(Add(t, id, now))
  {
    hide InOrder, Ids, Insert, TimerState.RepeatsOnce, Rearm;
    var e := Entry(t.events[id].arrive, id, t.serial);
    var t1 := t.(pending := Insert(t.pending, e), serial := t.serial + 1);
    InsertedIsSound(t, id);
    if t.pending == [] || t.events[t.pending[0].id].arrive > t.events[id].arrive {
      RearmWatches(t1, now);
    } else {
      InsertMembers(t.pending, e);
      assert t.pending[0] in t.pending;
    }
  }

  /** Adding sets the timerfd if and only if the event is the only one pending or arrives before the
      one that was first: for its own arrival, or 100 ms ahead if that is past. */
  lemma AddRearmsIffFirst(t: TimerState, id: EventId, now: int)
    requires t.Sound() && CanAdd(t, id)
    ensures var arrive := t.events[id].arrive;
            Add(t, id, now).fd
            == if forall e :: e in t.pending ==> arrive < t.events[e.id].arrive
               then Armed(now, if arrive > now then arrive else now + 100)
               else t.fd
  {
    hide InOrder, Ids, Insert, Rearm, TimerState.RepeatsOnce;
    var arrive := t.events[id].arrive;
    var e := Entry(arrive, id, t.serial);
    var t1 := t.(pending := Insert(t.pending, e), serial := t.serial + 1);
    InsertedIsSound(t, id);
    InsertMembers(t.pending, e);
    RearmWatches(t, now);
    RearmWatches(t1, now);
    assert e in t1.pending && t1.pending[0] in t1.pending;
    assert t.pending != [] ==> t.pending[0] in t.pending;
  }

  /** Deleting takes one entry of the event out of the queue, if there is one, and no other. */
  lemma DeleteIsSound(t: TimerState, id: EventId)
    requires t.Sound() && id in t.events
    ensures Delete(t, id).Sound()
    ensures Delete(t, id).Bag() == t.Bag() - multiset{id}
  {
    hide InOrder, Ids, Cancel, TimerState.RepeatsOnce, FindEntry;
    var p := t.pending;
    var k := FindEntry(p, t.events[id].arrive, id);
    var r := Delete(t, id);
    CancelKeepsTimes(t, id);
    if k < |p| {
      RemoveRange(t, k, k + 1, r);
      OneId(p, k);
      OneLess(t.Bag(), r.Bag(), id);
    } else {
      assert p == p[..0] + p[0..];
      RemoveRange(t, 0, 0, r);
      NotFound(t, id);
    }
  }

  lemma CancelKeepsTimes(t: TimerState, id: EventId)
    requires id in t.events
    ensures var r := Cancel(t, id);
            && r.events.Keys == t.events.Keys && r.pending == t.pending && r.serial == t.serial
            && forall x :: x in t.events ==>
                 r.events[x].arrive == t.events[x].arrive && r.events[x].repeats == t.events[x].repeats
  {
  }

  lemma OneId(p: seq<Entry>, k: nat)
    requires k < |p|
    ensures Ids(p[k..k + 1]) == [p[k].id]
  {
  }

  lemma OneLess(b: multiset<EventId>, r: multiset<EventId>, id: EventId)
    requires b == r + multiset([id])
    ensures r == b - multiset{id}
  {
  }

  lemma NotFound(t: TimerState, id: EventId)
    requires t.KeysMatch() && id in t.events && FindEntry(t.pending, t.events[id].arrive, id) == |t.pending|
    ensures t.Bag() == t.Bag() - multiset{id}
  {
    forall i | 0 <= i < |t.pending| ensures t.pending[i].id != id {
      assert t.pending[i] in t.pending;
    }
    assert id !in Ids(t.pending);
    assert t.Bag()[id] == 0;
  }

  lemma DeleteKeepsWatch(t: TimerState, id: EventId)
    requires Watched(t) && id in t.events
    ensures Watched(Delete(t, id))
  {
    var r := Delete(t, id);
    assert forall e :: e in r.pending ==> e in t.pending;
    assert forall x :: x in t.events ==> r.events[x].arrive == t.events[x].arrive;
  }

  lemma OrderedKeys(p: seq<Entry>)
    requires InOrder(p)
    ensures forall i, j :: 0 <= i < j < |p| ==> p[i].key <= p[j].key
  {
  }

  /* ----- The timer object ----- */

  const EMPTY: TimerState := TimerState(map[], [], Disarmed, 0)

  class Timer {
    var events: map<EventId, Event>
    var pending: seq<Entry>
    var fd: TimerFd
    var serial: nat

    function View(): TimerState
      reads this
    {
      TimerState(events, pending, fd, serial)
    }

    constructor ()
      ensures View() == EMPTY
    {
      events, pending, fd, serial := map[], [], Disarmed, 0;
    }

    /** reset_arrive_time */
    method ResetArriveTime(now: int)
      requires View().Known()
      modifies this`fd
      ensures View() == Rearm(old(View()), now)
    {
      if pending == [] {
        return;
      }
      var arrive := events[pending[0].id].arrive;
      var interval := if arrive > now then arrive - now else 100;
      fd := SetTime(now, TimeSpec(interval / 1000, interval % 1000 * 1000000));
    }

    method AddTimeEvent(id: EventId, now: int)
      requires View().Known() && id in events
      modifies this
      ensures View() == Add(old(View()), id, now)
    {
      var isResetTimerFd := pending == [] || events[pending[0].id].arrive > events[id].arrive;
      pending := Insert(pending, Entry(events[id].arrive, id, serial));
      serial := serial + 1;
      if isResetTimerFd {
        ResetArriveTime(now);
      }
    }

    /** A new TimerEvent, which arrives its interval from now. */
    method CreateEvent(id: EventId, interval: int, repeats: bool, now: int)
      requires id !in events
      modifies this`events
      ensures events == old(events)[id := Event(now + interval, interval, repeats, false)]
    {
      events := events[id := Event(now + interval, interval, repeats, false)];
    }

    /** set_cancel(true), as a reply does to the timeout of its call. */
    method SetCancel(id: EventId)
      requires id in events
      modifies this`events
      ensures View() == Cancel(old(View()), id)
      ensures id in events && events[id].cancelled
    {
      events := events[id := events[id].(cancelled := true)];
    }

    /** delete_time_event searches only among the entries with the arrival time of the event. */
    method DeleteTimeEvent(id: EventId)
      requires View().Known() && View().Ordered() && id in events
      modifies this
      ensures View() == Delete(old(View()), id)
      ensures id in events && events[id].cancelled
    {
      hide FindEntry;
      var arrive := events[id].arrive;
      events := events[id := events[id].(cancelled := true)];
      var it := Find(arrive, id);
      if it != |pending| {
        pending := pending[..it] + pending[it + 1..];
      }
    }

    /** The search of delete_time_event, from lower_bound to upper_bound; the length of the queue if
        it ends without a match. */
    method Find(arrive: int, id: EventId) returns (it: nat)
      requires View().Ordered()
      ensures it == FindEntry(pending, arrive, id)
    {
      hide UpTo, FindEntry;
      var end := UpTo(pending, arrive);
      it := UpTo(pending, arrive - 1);
      ghost var begin := it;
      OrderedKeys(pending);
      while it < end
        invariant begin <= it <= end
        invariant forall i :: begin <= i < it ==> pending[i].id != id
      {
        if pending[it].id == id {
          FoundAt(pending, arrive, id, it);
          return;
        }
        it := it + 1;
      }
      FoundAt(pending, arrive, id, |pending|);
      it := |pending|;
    }

    /** on_timer; returns the events whose tasks are run, in order. */
    method RunDue(clock: nat -> int) returns (tasks: seq<EventId>)
      requires View().Known()
      modifies this
      ensures Batch(View(), tasks) == OnTimer(old(View()), clock)
    {
      hide Add, Rearm, Insert, Readd, UpTo, Collect;
      if fd.Fired? {
        fd := Disarmed;
      }
      tasks := TakeDue(clock(0));
      AddAgain(tasks, clock);
      ResetArriveTime(clock(2 * |tasks| + 1));
    }

    /** Moves the due entries out of the queue and returns those that are not cancelled. */
    method TakeDue(now: int) returns (tasks: seq<EventId>)
      requires View().Known()
      modifies this`pending
      ensures tasks == Collect(old(pending), events, now)
      ensures pending == old(pending)[UpTo(old(pending), now)..]
    {
      hide UpTo, Collect, Collected;
      tasks := [];
      var it := 0;
      CollectedStart(pending, events, now);
      while it < |pending| && pending[it].key <= now
        invariant it <= |pending| && pending == old(pending) && Collected(pending, it, tasks, events, now)
      {
        CollectedStep(pending, it, tasks, events, now);
        if !events[pending[it].id].cancelled {
          tasks := tasks + [pending[it].id];
        } else {
          assert tasks + [] == tasks;
        }
        it := it + 1;
      }
      CollectedAll(pending, it, tasks, events, now);
      pending := pending[it..];
    }

    /** Reschedules the repeating events of a batch and puts them back. */
    method AddAgain(tasks: seq<EventId>, clock: nat -> int)
      requires View().Known() && forall i :: 0 <= i < |tasks| ==> tasks[i] in events
      modifies this
      ensures View() == Readd(old(View()), tasks, clock, 1)
    {
      hide Add;
      for k := 0 to |tasks|
        invariant View().Known() && events.Keys == old(events).Keys
        invariant Readd(old(View()), tasks, clock, 1) == Readd(View(), tasks[k..], clock, 2 * k + 1)
      {
        assert tasks[k..][0] == tasks[k] && tasks[k..][1..] == tasks[k + 1..];
        if events[tasks[k]].repeats {
          events := events[tasks[k] := events[tasks[k]].(arrive := clock(2 * k + 1) + events[tasks[k]].interval)];
          AddTimeEvent(tasks[k], clock(2 * k + 2));
        }
      }
    }
  }
}
