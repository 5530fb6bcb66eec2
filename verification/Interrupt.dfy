/** Simulated time: pending interrupts, sorted by when they are due, and the loop that fires them. */
module Interrupts {
  import opened Lists

  datatype Kind = Timer | Device

  /** An interrupt waiting to happen; `id` stands for its handler and argument. */
  datatype Event = Event(kind: Kind, id: nat)

  /** What a handler asks for: an interrupt some ticks from now. */
  datatype Request = Request(event: Event, fromNow: nat)

  /** What an interrupt does: to the rest of the machine, the `World`, and by scheduling more. */
  type Handler<!World> = (World, Event, nat) -> (World, seq<Request>)

  datatype Status = IdleMode | SystemMode | UserMode

  const USER_TICK := 1
  const SYSTEM_TICK := 10

  /** Handlers may only schedule strictly in the future. */
  ghost predicate Lawful<World(!new)>(handler: Handler<World>) {
    forall w, e, now :: Future(handler(w, e, now).1)
  }

  predicate Future(requests: seq<Request>) {
    forall i :: 0 <= i < |requests| ==> requests[i].fromNow > 0
  }

  /** The pending list after the requests have been scheduled in order. */
  function Scheduled(pending: seq<Entry<Event>>, requests: seq<Request>, now: nat): seq<Entry<Event>> {
    if requests == [] then pending
    else
      var r := requests[|requests| - 1];
      Inserted(Scheduled(pending, requests[..|requests| - 1], now), Entry(now + r.fromNow, r.event))
  }

  lemma ScheduledNone(pending: seq<Entry<Event>>, requests: seq<Request>, now: nat)
    ensures Scheduled(pending, requests[..0], now) == pending
  {
  }

  lemma ScheduledNext(pending: seq<Entry<Event>>, requests: seq<Request>, i: nat, now: nat)
    requires i < |requests|
    ensures Scheduled(pending, requests[..i + 1], now)
         == Inserted(Scheduled(pending, requests[..i], now), Entry(now + requests[i].fromNow, requests[i].event))
  {
    hide Inserted;
    assert requests[..i + 1][..i] == requests[..i];
  }

  /** The entries that requests make. */
  function Entries(requests: seq<Request>, now: nat): multiset<Entry<Event>> {
    if requests == [] then multiset{}
    else
      var r := requests[|requests| - 1];
      Entries(requests[..|requests| - 1], now) + multiset{Entry(now + r.fromNow, r.event)}
  }

  /** How many are due: exactly the first so many of a sorted list. */
  function Due(pending: seq<Entry<Event>>, now: nat): nat {
    Place(pending, now)
  }

  lemma PlaceInSorted(pending: seq<Entry<Event>>, now: int)
    requires Sorted(pending)
    ensures forall i :: 0 <= i < |pending| ==> (i < Place(pending, now) <==> pending[i].key <= now)
  {
  }

  /** What is inserted behind the present does not change what is due. */
  lemma InsertKeepsDue(pending: seq<Entry<Event>>, e: Entry<Event>, now: nat)
    requires Sorted(pending) && e.key > now
    ensures Place(Inserted(pending, e), now) == Place(pending, now)
    ensures Inserted(pending, e)[..Place(pending, now)] == pending[..Place(pending, now)]
  {
    var p, q := Place(pending, now), Place(pending, e.key);
    var r := Inserted(pending, e);
    PlaceInSorted(pending, now);
    assert p <= q;
    assert forall i :: 0 <= i < p ==> r[i] == pending[i];
    assert r[p].key > now by {
      assert p < q ==> r[p] == pending[p];
    }
    PlacedAt(r, now, p);
  }

  lemma {:induction false} ScheduledKeepsDue(pending: seq<Entry<Event>>, requests: seq<Request>, now: nat)
    requires Sorted(pending) && Future(requests)
    ensures Sorted(Scheduled(pending, requests, now))
    ensures Place(Scheduled(pending, requests, now), now) == Place(pending, now)
    ensures Scheduled(pending, requests, now)[..Place(pending, now)] == pending[..Place(pending, now)]
    ensures multiset(Scheduled(pending, requests, now)) == multiset(pending) + Entries(requests, now)
  {
    hide Inserted, Sorted, Place;
    if requests != [] {
      var front, r := requests[..|requests| - 1], requests[|requests| - 1];
      ScheduledKeepsDue(pending, front, now);
      var before, e := Scheduled(pending, front, now), Entry(now + r.fromNow, r.event);
      InsertKeepsDue(before, e, now);
      InsertionSorts(before, e);
      InsertionAdds(before, e);
    }
  }

  /** The world after the handlers of the events in `fired` have run, one after the other. */
  function Served<World>(handler: Handler<World>, world: World, fired: seq<Entry<Event>>, now: nat): World {
    if fired == [] then world
    else handler(Served(handler, world, fired[..|fired| - 1], now), fired[|fired| - 1].item, now).0
  }

  /** All the entries they make. */
  function Caused<World>(handler: Handler<World>, world: World, fired: seq<Entry<Event>>,
                         now: nat): multiset<Entry<Event>> {
    if fired == [] then multiset{}
    else
      var front, e := fired[..|fired| - 1], fired[|fired| - 1];
      Caused(handler, world, front, now) + Entries(handler(Served(handler, world, front, now), e.item, now).1, now)
  }

  lemma ServedOneMore<World>(handler: Handler<World>, world: World, fired: seq<Entry<Event>>, e: Entry<Event>, now: nat)
    ensures
      var r := handler(Served(handler, world, fired, now), e.item, now);
      && Served(handler, world, fired + [e], now) == r.0
      && Caused(handler, world, fired + [e], now) == Caused(handler, world, fired, now) + Entries(r.1, now)
  {
    assert (fired + [e])[..|fired|] == fired;
  }

  class Interrupt<World(!new)> {
    var pending: seq<Entry<Event>>
    var totalTicks: nat
    var status: Status
    var enabled: bool
    var world: World

    ghost predicate Valid()
      reads this
    {
      Sorted(pending)
    }

    constructor (world: World)
      ensures Valid() && pending == [] && totalTicks == 0 && status == SystemMode && !enabled && this.world == world
    {
      pending, totalTicks, status, enabled := [], 0, SystemMode, false;
      this.world := world;
    }

    /** `Interrupt::Schedule`. */
    method Schedule(event: Event, fromNow: nat)
      requires Valid() && fromNow > 0
      modifies this`pending
      ensures Valid() && pending == Inserted(old(pending), Entry(totalTicks + fromNow, event))
    {
      InsertionSorts(pending, Entry(totalTicks + fromNow, event));
      hide Inserted, Place;
      pending := Inserted(pending, Entry(totalTicks + fromNow, event));
    }

    /** A handler runs: it schedules what it asks for, one after the other. */
    method Handle(requests: seq<Request>)
      requires Valid() && Future(requests)
      modifies this`pending
      ensures Valid() && pending == Scheduled(old(pending), requests, totalTicks)
    {
      hide Scheduled, Inserted, Sorted, Place;
      ScheduledNone(pending, requests, totalTicks);
      for i := 0 to |requests|
        invariant Valid() && pending == Scheduled(old(pending), requests[..i], totalTicks)
      {
        ScheduledNext(old(pending), requests, i, totalTicks);
        Schedule(requests[i].event, requests[i].fromNow);
      }
      assert requests[..|requests|] == requests;
    }

    /** The last timer is not worth waking up for when nothing can run. */
    predicate OnlyTimer()
      reads this
    {
      status == IdleMode && |pending| == 1 && pending[0].item.kind == Timer
    }

    /** `Interrupt::CheckIfDue`: fires the first pending interrupt if it is due. */
    method CheckIfDue(advanceClock: bool, handler: Handler<World>) returns (fired: bool)
      requires Valid() && Lawful(handler) && !enabled
      modifies this`pending, this`totalTicks, this`world
      ensures Valid()
      ensures totalTicks ==
        if old(pending) != [] && advanceClock && old(pending)[0].key > old(totalTicks) then old(pending)[0].key
        else old(totalTicks)
      ensures fired <==>
        old(pending) != [] && (advanceClock || old(pending)[0].key <= old(totalTicks)) && !old(OnlyTimer())
      ensures fired ==>
        var r := handler(old(world), old(pending)[0].item, totalTicks);
        world == r.0 && pending == Scheduled(old(pending)[1..], r.1, totalTicks)
      ensures !fired ==>
        world == old(world)
          && pending == if old(pending) == [] then [] else Inserted(old(pending)[1..], old(pending)[0])
    {
      if pending == [] {
        return false;
      }
      var toOccur := pending[0];
      ghost var only := OnlyTimer();
      pending := pending[1..];
      if advanceClock && toOccur.key > totalTicks {
        totalTicks := toOccur.key;
      } else if toOccur.key > totalTicks {
        InsertionSorts(pending, toOccur);
        pending := Inserted(pending, toOccur);
        return false;
      }
      if status == IdleMode && toOccur.item.kind == Timer && pending == [] {
        InsertionSorts(pending, toOccur);
        pending := Inserted(pending, toOccur);
        return false;
      }
      var r := handler(world, toOccur.item, totalTicks);
      world := r.0;
      Handle(r.1);
      fired := true;
    }

    /** How the firing loop stands: `log` has been fired, out of what was pending at the start. */
    ghost predicate Firing(handler: Handler<World>, first: World, start: seq<Entry<Event>>, log: seq<Entry<Event>>,
                           now: nat)
      reads this
    {
      && Valid() && totalTicks == now && |log| <= Due(start, now)
      && log == start[..|log|]
      && Place(pending, now) == Due(start, now) - |log|
      && pending[..Place(pending, now)] == start[|log|..Due(start, now)]
      && world == Served(handler, first, log, now)
      && multiset(pending) == multiset(start[|log|..]) + Caused(handler, first, log, now)
    }

    /** One turn of the loop. */
    method FireNext(handler: Handler<World>, ghost first: World, ghost start: seq<Entry<Event>>,
                    ghost log: seq<Entry<Event>>,
                    ghost now: nat)
      returns (fired: bool, ghost log': seq<Entry<Event>>)
      requires Lawful(handler) && !enabled && status != IdleMode && Firing(handler, first, start, log, now)
      modifies this`pending, this`totalTicks, this`world
      ensures Firing(handler, first, start, log', now)
      ensures if fired then |log'| == |log| + 1 else log' == log && |log| == Due(start, now)
    {
      ghost var before := pending;
      PlaceInSorted(before, now);
      fired := CheckIfDue(false, handler);
      log' := log;
      if fired {
        log' := log + [before[0]];
        FiredOne(before, pending, handler, first, start, log, now);
      } else {
        NotDue(before, now);
      }
    }

    /** `Interrupt::OneTick`, up to the context switch it may ask for. */
    method OneTick(handler: Handler<World>) returns (ghost log: seq<Entry<Event>>)
      requires Valid() && Lawful(handler) && enabled && status != IdleMode
      modifies this
      ensures Valid() && enabled && status == old(status)
      ensures totalTicks == old(totalTicks) + if status == SystemMode then SYSTEM_TICK else USER_TICK
      ensures log == old(pending)[..Due(old(pending), totalTicks)]
      ensures forall i :: 0 <= i < |pending| ==> pending[i].key > totalTicks
      ensures world == Served(handler, old(world), log, totalTicks)
      ensures multiset(pending) == multiset(old(pending)[|log|..]) + Caused(handler, old(world), log, totalTicks)
    {
      if status == SystemMode {
        totalTicks := totalTicks + SYSTEM_TICK;
      } else {
        totalTicks := totalTicks + USER_TICK;
      }
      enabled := false;
      log := [];
      ghost var first, start, now := world, pending, totalTicks;
      StartFiring(handler, first, start, now);
      var fired := true;
      while fired
        invariant Firing(handler, first, start, log, now) && !enabled && status == old(status)
        invariant !fired ==> |log| == Due(start, now)
        decreases Due(start, now) - |log|, fired
      {
        fired, log := FireNext(handler, first, start, log, now);
      }
      PlaceInSorted(pending, now);
      enabled := true;
    }

    /** Nothing left to fire: all in the future, or just the timer. */
    ghost predicate Exhausted()
      reads this
    {
      (forall i :: 0 <= i < |pending| ==> pending[i].key > totalTicks)
        || (|pending| == 1 && pending[0].item.kind == Timer)
    }

    /** Since `start`, exactly the handlers of `log` have run, and made their entries. */
    ghost predicate Accounted(handler: Handler<World>, first: World, start: seq<Entry<Event>>, log: seq<Entry<Event>>,
                              now: nat)
      reads this
    {
      && world == Served(handler, first, log, now)
      && multiset(pending) + multiset(log) == multiset(start) + Caused(handler, first, log, now)
    }

    /** One turn of the loop in `Idle`. */
    method IdleTurn(handler: Handler<World>, ghost first: World, ghost start: seq<Entry<Event>>,
                    ghost log: seq<Entry<Event>>)
      returns (fired: bool, ghost log': seq<Entry<Event>>)
      requires Valid() && Lawful(handler) && !enabled && Accounted(handler, first, start, log, totalTicks)
      modifies this`pending, this`totalTicks, this`world
      ensures Valid() && totalTicks == old(totalTicks) && Accounted(handler, first, start, log', totalTicks)
      ensures
        if fired then old(pending) != [] && log' == log + [old(pending)[0]] && old(pending)[0].key <= totalTicks
        else log' == log
      ensures fired ==> Due(pending, totalTicks) < old(Due(pending, totalTicks))
      ensures !fired ==> Exhausted()
    {
      ghost var before, now := pending, totalTicks;
      fired := CheckIfDue(false, handler);
      log' := log;
      if fired {
        log' := log + [before[0]];
        RestIsDue(before, before, 0, now);
        AccountOneMore(handler, first, start, log, before, pending, now);
      } else if before != [] {
        if before[0].key > now {
          NotDue(before, now);
          PlaceInSorted(pending, now);
        } else {
          assert pending == [before[0]] == before;
        }
      }
    }

    /** The loop in `Idle`, when the first one has fired. */
    method IdleLoop(handler: Handler<World>, ghost first: World, ghost start: seq<Entry<Event>>)
      returns (ghost log: seq<Entry<Event>>)
      requires Valid() && Lawful(handler) && !enabled && start != [] && start[0].key <= totalTicks
      requires Accounted(handler, first, start, [start[0]], totalTicks)
      modifies this`pending, this`totalTicks, this`world
      ensures Valid() && totalTicks == old(totalTicks) && Exhausted()
        && Accounted(handler, first, start, log, totalTicks)
      ensures log != [] && log[0] == start[0] && forall i :: 0 <= i < |log| ==> log[i].key <= totalTicks
    {
      hide Accounted, Sorted, Place;
      log := [start[0]];
      var fired := true;
      while fired
        invariant Valid() && totalTicks == old(totalTicks) && !enabled && (!fired ==> Exhausted())
        invariant Accounted(handler, first, start, log, totalTicks)
        invariant log != [] && log[0] == start[0] && forall i :: 0 <= i < |log| ==> log[i].key <= totalTicks
        decreases fired, Due(pending, totalTicks)
      {
        fired, log := IdleTurn(handler, first, start, log);
      }
    }

    /**
     `Interrupt::Idle`: jump to the next interrupt, or give up if none but the timer is left.
     Of what was pending or got scheduled meanwhile, `log` has fired and the rest is still there.
     */
    method Idle(consoleRunning: bool, handler: Handler<World>) returns (halted: bool, ghost log: seq<Entry<Event>>)
      requires Valid() && Lawful(handler) && !enabled
      modifies this`pending, this`totalTicks, this`status, this`world
      ensures Valid()
      ensures halted <==>
        consoleRunning || old(pending) == [] || (|old(pending)| == 1 && old(pending)[0].item.kind == Timer)
      ensures halted ==> log == [] && world == old(world) && multiset(pending) == multiset(old(pending))
      ensures !halted ==>
        && totalTicks == (if old(pending)[0].key > old(totalTicks) then old(pending)[0].key else old(totalTicks))
        && status == SystemMode && Exhausted()
        && log != [] && log[0] == old(pending)[0] && (forall i :: 0 <= i < |log| ==> log[i].key <= totalTicks)
        && Accounted(handler, old(world), old(pending), log, totalTicks)
    {
      hide Scheduled, Inserted, Place, Caused, Served;
      status, log := IdleMode, [];
      if !consoleRunning {
        ghost var first, start := world, pending;
        var fired := CheckIfDue(true, handler);
        if fired {
          AccountFirst(handler, first, start, pending, totalTicks);
          log := IdleLoop(handler, first, start);
          status := SystemMode;
          return false, log;
        }
        Unfired(start);
      }
      halted := true;
    }
  }

  lemma StartFiring<World>(handler: Handler<World>, first: World, start: seq<Entry<Event>>, now: nat)
    ensures start[..0] == [] && start[0..] == start && Caused(handler, first, [], now) == multiset{}
    ensures start[0..Due(start, now)] == start[..Due(start, now)]
  {
  }

  lemma FiredOne<World(!new)>(before: seq<Entry<Event>>, after: seq<Entry<Event>>, handler: Handler<World>,
                       first: World,
                              start: seq<Entry<Event>>, log: seq<Entry<Event>>, now: nat)
    requires Sorted(before) && before != [] && before[0].key <= now && Lawful(handler)
    requires after == Scheduled(before[1..], handler(Served(handler, first, log, now), before[0].item, now).1, now)
    requires |log| <= Due(start, now) && log == start[..|log|] && Place(before, now) == Due(start, now) - |log|
    requires before[..Place(before, now)] == start[|log|..Due(start, now)]
    requires multiset(before) == multiset(start[|log|..]) + Caused(handler, first, log, now)
    ensures Sorted(after) && |log| < Due(start, now) && log + [before[0]] == start[..|log| + 1]
    ensures Place(after, now) == Due(start, now) - |log| - 1
    ensures after[..Place(after, now)] == start[|log| + 1..Due(start, now)]
    ensures Served(handler, first, log + [before[0]], now)
      == handler(Served(handler, first, log, now), before[0].item, now).0
    ensures multiset(after) == multiset(start[|log| + 1..]) + Caused(handler, first, log + [before[0]], now)
  {
    hide Sorted, Scheduled, Place, Caused, Entries, Served;
    var rest, requests := before[1..], handler(Served(handler, first, log, now), before[0].item, now).1;
    RestIsDue(before, start, |log|, now);
    assert Future(requests);
    ScheduledKeepsDue(rest, requests, now);
    ServedOneMore(handler, first, log, before[0], now);
    TakeOne(before, start, |log|, Caused(handler, first, log, now));
  }

  /** Firing the first of `before` keeps the account, and makes nothing due. */
  lemma AccountOneMore<World(!new)>(handler: Handler<World>, first: World, start: seq<Entry<Event>>,
                             log: seq<Entry<Event>>,
                                    before: seq<Entry<Event>>, after: seq<Entry<Event>>, now: nat)
    requires before != [] && Sorted(before[1..]) && Lawful(handler)
    requires multiset(before) + multiset(log) == multiset(start) + Caused(handler, first, log, now)
    requires after == Scheduled(before[1..], handler(Served(handler, first, log, now), before[0].item, now).1, now)
    ensures Place(after, now) == Place(before[1..], now)
    ensures Served(handler, first, log + [before[0]], now)
      == handler(Served(handler, first, log, now), before[0].item, now).0
    ensures multiset(after) + multiset(log + [before[0]])
      == multiset(start) + Caused(handler, first, log + [before[0]], now)
  {
    hide Sorted, Scheduled, Place, Caused, Entries, Served;
    var e, rest, requests := before[0], before[1..], handler(Served(handler, first, log, now), before[0].item, now).1;
    assert Future(requests);
    ScheduledKeepsDue(rest, requests, now);
    ServedOneMore(handler, first, log, e, now);
    assert before == [e] + rest;
    var made := Entries(requests, now);
    calc {
      multiset(after) + multiset(log + [e]);
      (multiset(rest) + made) + (multiset(log) + multiset{e});
      (multiset(before) + multiset(log)) + made;
      multiset(start) + Caused(handler, first, log + [e], now);
    }
  }

  lemma AccountFirst<World(!new)>(handler: Handler<World>, first: World, start: seq<Entry<Event>>,
                           after: seq<Entry<Event>>, now: nat)
    requires start != [] && Sorted(start[1..]) && Lawful(handler)
    requires after == Scheduled(start[1..], handler(first, start[0].item, now).1, now)
    ensures Served(handler, first, [start[0]], now) == handler(first, start[0].item, now).0
    ensures multiset(after) + multiset([start[0]]) == multiset(start) + Caused(handler, first, [start[0]], now)
  {
    hide Sorted, Scheduled;
    AccountOneMore(handler, first, start, [], start, after, now);
    assert [] + [start[0]] == [start[0]];
  }

  /** What was taken off and put back is all there. */
  lemma Unfired(start: seq<Entry<Event>>)
    ensures start != [] ==> multiset(Inserted(start[1..], start[0])) == multiset(start)
  {
    if start != [] {
      InsertionAdds(start[1..], start[0]);
      assert start == [start[0]] + start[1..];
    }
  }

  /** The first one gone, the rest that is due is the rest of what was due at the start. */
  lemma RestIsDue(before: seq<Entry<Event>>, start: seq<Entry<Event>>, n: nat, now: nat)
    requires Sorted(before) && before != [] && before[0].key <= now
    requires n <= Due(start, now) && Place(before, now) == Due(start, now) - n
    requires before[..Place(before, now)] == start[n..Due(start, now)]
    ensures Sorted(before[1..]) && n < Due(start, now) && before[0] == start[n]
      && start[..n] + [before[0]] == start[..n + 1]
    ensures Place(before[1..], now) == Due(start, now) - n - 1
    ensures before[1..][..Place(before[1..], now)] == start[n + 1..Due(start, now)]
  {
    var p := Place(before, now);
    assert before[..p][0] == start[n..Due(start, now)][0] == start[n];
    PlaceInSorted(before, now);
    PlacedAt(before[1..], now, p - 1);
    assert before[1..][..p - 1] == before[..p][1..] == start[n + 1..Due(start, now)];
  }

  lemma TakeOne(before: seq<Entry<Event>>, start: seq<Entry<Event>>, n: nat, caused: multiset<Entry<Event>>)
    requires before != [] && n < |start| && before[0] == start[n]
    requires multiset(before) == multiset(start[n..]) + caused
    ensures multiset(before[1..]) == multiset(start[n + 1..]) + caused
  {
    assert before == [before[0]] + before[1..];
    assert start[n..] == [start[n]] + start[n + 1..];
    assert multiset(before[1..]) == multiset(before) - multiset{before[0]};
    assert multiset(start[n + 1..]) == multiset(start[n..]) - multiset{start[n]};
  }

  /** Putting back what is not due yet keeps everything in the future. */
  lemma NotDue(before: seq<Entry<Event>>, now: nat)
    requires Sorted(before) && (before != [] ==> before[0].key > now)
    ensures Place(before, now) == 0
    ensures before != [] ==>
      var after := Inserted(before[1..], before[0]);
      Place(after, now) == 0 && multiset(after) == multiset(before)
  {
    if before != [] {
      InsertionAdds(before[1..], before[0]);
      assert before == [before[0]] + before[1..];
      var after := Inserted(before[1..], before[0]);
      assert after[0].key > now;
    }
  }
}
