/**
 Locks and condition variables as an interleaved machine.  A thread can be
 preempted between any two statements; only passes through `P` and `V` are atomic.
 */
module Monitors {
  import opened Options
  import opened Numbers
  import opened Semaphores

  /** The private semaphore of one call of `Wait`, and how often it was popped from the queue, raised and passed. */
  datatype Ticket = Ticket(waiter: Tid, cond: nat, sem: Sem, pops: nat, ups: nat, downs: nat)

  /** Where a thread is. */
  datatype Pc =
    | Out                  // outside
    | Acquiring            // in `Acquire`, at or asleep in `semaphore->P()`
    | Acquired             // `P` has returned, `lockOwner` is not set yet
    | In                   // holds the lock, between statements of the caller
    | Signalling(n: nat)   // in `Signal`, has popped ticket `n`, about to call `V` on it
    | WaitRelease(n: nat)  // in `Wait`, has queued ticket `n`, about to clear `lockOwner`
    | WaitUp(n: nat)       // in `Wait`, about to call `V` on the lock
    | WaitDown(n: nat)     // in `Wait`, at or asleep in `P` of ticket `n`
    | Releasing            // in `Release`, `lockOwner` is cleared, about to call `V`

  datatype Monitor = Monitor(lock: Sem, owner: Option<Tid>, threads: seq<Pc>, conds: seq<seq<nat>>,
    tickets: seq<Ticket>)

  /** What the program of a thread does next, where it has a choice. */
  datatype Choice = Stay | Enter | SignalOn(c: nat) | WaitOn(c: nat) | Leave

  function Goes(m: Monitor, t: Tid, pc: Pc): Monitor
    requires t < |m.threads|
  {
    m.(threads := m.threads[t := pc])
  }

  /** Serial numbers in use denote tickets. */
  predicate Shape(m: Monitor) {
    && (forall c, i :: 0 <= c < |m.conds| && 0 <= i < |m.conds[c]| ==> m.conds[c][i] < |m.tickets|)
    && (forall t :: 0 <= t < |m.threads| ==> InRange(m.threads[t], |m.tickets|))
  }

  predicate InRange(pc: Pc, count: nat) {
    pc.Signalling? || pc.WaitRelease? || pc.WaitUp? || pc.WaitDown? ==> pc.n < count
  }

  function Step(m: Monitor, t: Tid, choice: Choice): Monitor
    requires Shape(m) && t < |m.threads|
  {
    assert InRange(m.threads[t], |m.tickets|);
    match m.threads[t]
    case Out => if choice == Enter then Goes(m, t, Acquiring) else m
    case Acquiring =>
      if t in m.lock.queue then m
      else Goes(m, t, if Succeeds(m.lock) then Acquired else Acquiring).(lock := Down(m.lock, t))
    case Acquired => Goes(m, t, In).(owner := Some(t))
    case In =>
      (match choice
       case SignalOn(c) => if c < |m.conds| && m.conds[c] != [] then Pop(m, t, c) else m
       case WaitOn(c) => if c < |m.conds| then Queue(m, t, c) else m
       case Leave => Goes(m, t, Releasing).(owner := None)
       case _ => m)
    case Signalling(n) => Raise(m, t, n)
    case WaitRelease(n) => Goes(m, t, WaitUp(n)).(owner := None)
    case WaitUp(n) => Goes(m, t, WaitDown(n)).(lock := Up(m.lock))
    case WaitDown(n) => Sleep(m, t, n)
    case Releasing => Goes(m, t, Out).(lock := Up(m.lock))
  }

  function Pop(m: Monitor, t: Tid, c: nat): Monitor
    requires Shape(m) && t < |m.threads| && c < |m.conds| && m.conds[c] != []
  {
    var n := m.conds[c][0];
    Goes(m, t, Signalling(n)).(
      conds := m.conds[c := m.conds[c][1..]],
      tickets := m.tickets[n := m.tickets[n].(pops := m.tickets[n].pops + 1)])
  }

  function Queue(m: Monitor, t: Tid, c: nat): Monitor
    requires t < |m.threads| && c < |m.conds|
  {
    var n := |m.tickets|;
    Goes(m, t, WaitRelease(n)).(
      conds := m.conds[c := m.conds[c] + [n]],
      tickets := m.tickets + [Ticket(t, c, Sem(0, [], {}), 0, 0, 0)])
  }

  function Raise(m: Monitor, t: Tid, n: nat): Monitor
    requires t < |m.threads| && n < |m.tickets|
  {
    var k := m.tickets[n];
    Goes(m, t, In).(tickets := m.tickets[n := k.(sem := Up(k.sem), ups := k.ups + 1)])
  }

  function Sleep(m: Monitor, t: Tid, n: nat): Monitor
    requires t < |m.threads| && n < |m.tickets|
  {
    var k := m.tickets[n];
    if t in k.sem.queue then m
    else if Succeeds(k.sem) then
      Goes(m, t, Acquiring).(tickets := m.tickets[n := k.(sem := Down(k.sem, t), downs := k.downs + 1)])
    else m.(tickets := m.tickets[n := k.(sem := Down(k.sem, t))])
  }

  // ---------- the lock ----------

  /** Between the `P` of `Acquire` and the `V` that gives the lock back. */
  predicate Holds(pc: Pc) {
    pc.Acquired? || pc.In? || pc.Signalling? || pc.WaitRelease? || pc.WaitUp? || pc.Releasing?
  }

  /** Where `lockOwner` has to name the thread. */
  predicate Owns(pc: Pc) {
    pc.In? || pc.Signalling? || pc.WaitRelease?
  }

  /** `h` holds the lock and nobody else does. */
  ghost predicate SoleHolder(threads: seq<Pc>, h: Tid) {
    h < |threads| && Holds(threads[h]) && forall t :: 0 <= t < |threads| && Holds(threads[t]) ==> t == h
  }

  ghost predicate NoHolder(threads: seq<Pc>) {
    forall t :: 0 <= t < |threads| ==> !Holds(threads[t])
  }

  /** Threads queued or woken at the lock are in `Acquire`. */
  ghost predicate QueueOk(lock: Sem, threads: seq<Pc>) {
    forall t :: t in lock.queue || t in lock.woken ==> t < |threads| && threads[t] == Acquiring
  }

  ghost predicate OwnerOk(owner: Option<Tid>, threads: seq<Pc>) {
    && (owner.Some? ==> owner.value < |threads| && Owns(threads[owner.value]))
    && (forall t :: 0 <= t < |threads| && Owns(threads[t]) ==> owner == Some(t))
  }

  ghost predicate LockInv(m: Monitor) {
    && SemOk(m.lock) && QueueOk(m.lock, m.threads) && OwnerOk(m.owner, m.threads)
    && (if m.lock.value == 0 then exists h :: SoleHolder(m.threads, h) else m.lock.value == 1 && NoHolder(m.threads))
  }

  /** `t` moves between two states in which it holds the lock or two in which it does not. */
  lemma MoveKeepsLock(m: Monitor, t: Tid, pc: Pc, m': Monitor)
    requires LockInv(m) && t < |m.threads| && t !in m.lock.queue && t !in m.lock.woken
    requires Holds(pc) == Holds(m.threads[t])
    requires m'.lock == m.lock && m'.threads == m.threads[t := pc]
    requires m'.owner == if Owns(pc) then Some(t) else if Owns(m.threads[t]) then None else m.owner
    ensures LockInv(m')
  {
    hide SemOk;
    if m.lock.value == 0 {
      var h :| SoleHolder(m.threads, h);
      assert SoleHolder(m'.threads, h);
    }
  }

  lemma DownKeepsLock(m: Monitor, t: Tid)
    requires LockInv(m) && Shape(m) && t < |m.threads| && m.threads[t] == Acquiring
    ensures LockInv(Step(m, t, Stay))
  {
    var m' := Step(m, t, Stay);
    if t !in m.lock.queue {
      DownKeepsOk(m.lock, t);
      DownMembers(m.lock, t);
      hide SemOk, Down, Shape;
      if m.lock.value == 0 {
        assert m'.threads == m.threads;
      } else {
        assert SoleHolder(m'.threads, t);
      }
    }
  }

  /** The holder gives the lock back. */
  lemma UpKeepsLock(m: Monitor, t: Tid, pc: Pc, m': Monitor)
    requires LockInv(m) && t < |m.threads| && Holds(m.threads[t]) && !Owns(m.threads[t]) && !Holds(pc)
    requires m' == Goes(m, t, pc).(lock := Up(m.lock))
    ensures LockInv(m')
  {
    UpKeepsOk(m.lock);
    UpMembers(m.lock);
    hide SemOk, Up;
    var h :| SoleHolder(m.threads, h);
    assert h == t;
  }

  lemma StepKeepsLock(m: Monitor, t: Tid, choice: Choice)
    requires LockInv(m) && Shape(m) && t < |m.threads|
    ensures LockInv(Step(m, t, choice))
  {
    var m' := Step(m, t, choice);
    match m.threads[t]
    case Acquiring => DownKeepsLock(m, t);
    case WaitUp(n) => UpKeepsLock(m, t, WaitDown(n), m');
    case Releasing => UpKeepsLock(m, t, Out, m');
    case _ => MoveKeepsLock(m, t, m'.threads[t], m');
  }

  // ---------- waiting and signalling ----------

  predicate AtWait(pc: Pc, n: nat) {
    pc == WaitRelease(n) || pc == WaitUp(n) || pc == WaitDown(n)
  }

  /**
   The life of a ticket: queued until popped, raised once after that, passed once after that.
   The waiter is asleep on it only while it has not been raised.
   */
  ghost predicate TicketOk(m: Monitor, n: nat)
    requires n < |m.tickets|
  {
    var k := m.tickets[n];
    && k.waiter < |m.threads| && k.cond < |m.conds|
    && k.downs <= k.ups <= k.pops <= 1 && k.sem.value == k.ups - k.downs
    && (k.downs == 0 <==> AtWait(m.threads[k.waiter], n))
    && (k.sem.queue == [] || (k.sem.queue == [k.waiter] && k.ups == 0 && m.threads[k.waiter] == WaitDown(n)))
    && (n in m.conds[k.cond] <==> k.pops == 0)
    && (k.ups < k.pops ==> exists t :: 0 <= t < |m.threads| && m.threads[t] == Signalling(n))
  }

  ghost predicate CondOk(m: Monitor, c: nat)
    requires c < |m.conds|
  {
    Distinct(m.conds[c]) && forall n :: n in m.conds[c] ==> n < |m.tickets| && m.tickets[n].cond == c
  }

  ghost predicate ThreadOk(m: Monitor, t: Tid)
    requires t < |m.threads|
  {
    match m.threads[t]
    case Signalling(n) => n < |m.tickets| && m.tickets[n].pops == 1 && m.tickets[n].ups == 0
    case WaitRelease(n) => n < |m.tickets| && m.tickets[n].waiter == t
    case WaitUp(n) => n < |m.tickets| && m.tickets[n].waiter == t
    case WaitDown(n) => n < |m.tickets| && m.tickets[n].waiter == t
    case _ => true
  }

  ghost predicate WaitInv(m: Monitor) {
    && (forall n :: 0 <= n < |m.tickets| ==> TicketOk(m, n))
    && (forall c :: 0 <= c < |m.conds| ==> CondOk(m, c))
    && (forall t :: 0 <= t < |m.threads| ==> ThreadOk(m, t))
  }

  ghost predicate Inv(m: Monitor) {
    LockInv(m) && WaitInv(m)
  }

  lemma InvHasShape(m: Monitor)
    requires WaitInv(m)
    ensures Shape(m)
  {
    forall c, i | 0 <= c < |m.conds| && 0 <= i < |m.conds[c]|
      ensures m.conds[c][i] < |m.tickets|
    {
      assert CondOk(m, c) && m.conds[c][i] in m.conds[c];
    }
    forall t | 0 <= t < |m.threads|
      ensures InRange(m.threads[t], |m.tickets|)
    {
      assert ThreadOk(m, t);
    }
  }

  /** `t` moves without touching tickets or queues, and not into or out of `Signal` and `Wait`. */
  lemma MoveKeepsWait(m: Monitor, t: Tid, pc: Pc, m': Monitor)
    requires WaitInv(m) && t < |m.threads|
    requires m'.tickets == m.tickets && m'.conds == m.conds && m'.threads == m.threads[t := pc]
    requires !m.threads[t].Signalling? && !pc.Signalling?
    requires forall n :: AtWait(m.threads[t], n) <==> AtWait(pc, n)
    requires m.threads[t].WaitDown? ==> pc == m.threads[t]
    ensures WaitInv(m')
  {
    forall n | 0 <= n < |m.tickets|
      ensures TicketOk(m', n)
    {
      assert TicketOk(m, n);
      if m.tickets[n].ups < m.tickets[n].pops {
        var u :| 0 <= u < |m.threads| && m.threads[u] == Signalling(n);
        assert m'.threads[u] == Signalling(n);
      }
    }
    forall c | 0 <= c < |m.conds|
      ensures CondOk(m', c)
    {
      assert CondOk(m, c);
    }
    forall u | 0 <= u < |m.threads|
      ensures ThreadOk(m', u)
    {
      assert ThreadOk(m, u);
      if u == t {
        match pc
        case WaitRelease(n) => assert AtWait(m.threads[t], n);
        case WaitUp(n) => assert AtWait(m.threads[t], n);
        case WaitDown(n) => assert AtWait(m.threads[t], n);
        case _ =>
      }
    }
  }

  lemma PopKeepsWait(m: Monitor, t: Tid, c: nat)
    requires WaitInv(m) && Shape(m) && t < |m.threads| && m.threads[t] == In && c < |m.conds| && m.conds[c] != []
    ensures WaitInv(Pop(m, t, c))
  {
    var m', n0 := Pop(m, t, c), m.conds[c][0];
    assert CondOk(m, c) && n0 in m.conds[c];
    assert m.conds[c] == [n0] + m.conds[c][1..];
    assert TicketOk(m, n0);
    assert m'.threads[t] == Signalling(n0);
    forall n | 0 <= n < |m.tickets|
      ensures TicketOk(m', n)
    {
      assert TicketOk(m, n);
      if m.tickets[n].ups < m.tickets[n].pops {
        var u :| 0 <= u < |m.threads| && m.threads[u] == Signalling(n);
        assert m'.threads[u] == Signalling(n);
      }
    }
    forall d | 0 <= d < |m.conds|
      ensures CondOk(m', d)
    {
      assert CondOk(m, d);
    }
    forall u | 0 <= u < |m.threads|
      ensures ThreadOk(m', u)
    {
      assert ThreadOk(m, u);
    }
  }

  lemma QueueKeepsWait(m: Monitor, t: Tid, c: nat)
    requires WaitInv(m) && t < |m.threads| && m.threads[t] == In && c < |m.conds|
    ensures WaitInv(Queue(m, t, c))
  {
    var m', n0 := Queue(m, t, c), |m.tickets|;
    assert n0 in m'.conds[c];
    forall n | 0 <= n < |m'.tickets|
      ensures TicketOk(m', n)
    {
      if n < n0 {
        assert TicketOk(m, n);
        assert m.tickets[n].waiter == t ==> m.tickets[n].downs == 1;
        if m.tickets[n].ups < m.tickets[n].pops {
          var u :| 0 <= u < |m.threads| && m.threads[u] == Signalling(n);
          assert m'.threads[u] == Signalling(n);
        }
      }
    }
    forall d | 0 <= d < |m.conds|
      ensures CondOk(m', d)
    {
      assert CondOk(m, d);
      forall i | 0 <= i < |m.conds[d]|
        ensures m.conds[d][i] < n0
      {
        assert m.conds[d][i] in m.conds[d];
      }
    }
    forall u | 0 <= u < |m.threads|
      ensures ThreadOk(m', u)
    {
      assert ThreadOk(m, u);
    }
  }

  /** Nobody else is about to raise the same ticket: that is what the lock is for. */
  lemma RaiseKeepsWait(m: Monitor, t: Tid, n0: nat)
    requires Inv(m) && t < |m.threads| && n0 < |m.tickets| && m.threads[t] == Signalling(n0)
    ensures WaitInv(Raise(m, t, n0))
  {
    var m' := Raise(m, t, n0);
    assert ThreadOk(m, t) && Holds(m.threads[t]);
    var h :| SoleHolder(m.threads, h);
    assert h == t;
    forall n | 0 <= n < |m.tickets|
      ensures TicketOk(m', n)
    {
      assert TicketOk(m, n);
    }
    forall d | 0 <= d < |m.conds|
      ensures CondOk(m', d)
    {
      assert CondOk(m, d);
    }
    forall u | 0 <= u < |m.threads|
      ensures ThreadOk(m', u)
    {
      assert ThreadOk(m, u);
    }
  }

  lemma SleepKeepsWait(m: Monitor, t: Tid, n0: nat)
    requires WaitInv(m) && t < |m.threads| && n0 < |m.tickets| && m.threads[t] == WaitDown(n0)
    ensures WaitInv(Sleep(m, t, n0))
  {
    var m' := Sleep(m, t, n0);
    assert ThreadOk(m, t) && TicketOk(m, n0);
    forall n | 0 <= n < |m.tickets|
      ensures TicketOk(m', n)
    {
      assert TicketOk(m, n);
      if m.tickets[n].ups < m.tickets[n].pops {
        var u :| 0 <= u < |m.threads| && m.threads[u] == Signalling(n);
        assert m'.threads[u] == Signalling(n);
      }
    }
    forall d | 0 <= d < |m.conds|
      ensures CondOk(m', d)
    {
      assert CondOk(m, d);
    }
    forall u | 0 <= u < |m.threads|
      ensures ThreadOk(m', u)
    {
      assert ThreadOk(m, u);
    }
  }

  lemma InsideKeepsWait(m: Monitor, t: Tid, choice: Choice)
    requires Inv(m) && Shape(m) && t < |m.threads| && m.threads[t] == In
    ensures WaitInv(Step(m, t, choice))
  {
    hide LockInv, TicketOk, CondOk, ThreadOk;
    match choice
    case SignalOn(c) =>
      if c < |m.conds| && m.conds[c] != [] {
        PopKeepsWait(m, t, c);
      }
    case WaitOn(c) =>
      if c < |m.conds| {
        QueueKeepsWait(m, t, c);
      }
    case Leave => MoveKeepsWait(m, t, Releasing, Step(m, t, Leave));
    case _ =>
  }

  lemma StepKeepsWait(m: Monitor, t: Tid, choice: Choice)
    requires Inv(m) && Shape(m) && t < |m.threads|
    ensures WaitInv(Step(m, t, choice))
  {
    hide LockInv, WaitInv, Down, Up;
    assert InRange(m.threads[t], |m.tickets|);
    var m' := Step(m, t, choice);
    match m.threads[t]
    case In => InsideKeepsWait(m, t, choice);
    case Signalling(n) => RaiseKeepsWait(m, t, n);
    case WaitDown(n) => SleepKeepsWait(m, t, n);
    case Out => MoveKeepsWait(m, t, m'.threads[t], m');
    case Acquiring => MoveKeepsWait(m, t, m'.threads[t], m');
    case Acquired => MoveKeepsWait(m, t, In, m');
    case WaitRelease(n) => MoveKeepsWait(m, t, WaitUp(n), m');
    case WaitUp(n) => MoveKeepsWait(m, t, WaitDown(n), m');
    case Releasing => MoveKeepsWait(m, t, Out, m');
  }

  lemma StepKeepsInv(m: Monitor, t: Tid, choice: Choice)
    requires Inv(m) && t < |m.threads|
    ensures Shape(m) && Inv(Step(m, t, choice))
  {
    InvHasShape(m);
    StepKeepsLock(m, t, choice);
    StepKeepsWait(m, t, choice);
  }

  // ---------- every schedule ----------

  datatype Event = Event(t: Tid, choice: Choice)

  /** Any schedule of any programs that use the lock and its conditions. */
  ghost function Run(m: Monitor, schedule: seq<Event>): (r: Monitor)
    requires Inv(m)
    ensures Inv(r) && |r.threads| == |m.threads|
  {
    if schedule == [] then m
    else
      var e := schedule[|schedule| - 1];
      var before := Run(m, schedule[..|schedule| - 1]);
      Next(before, e)
  }

  ghost function Next(m: Monitor, e: Event): (r: Monitor)
    requires Inv(m)
    ensures Inv(r) && |r.threads| == |m.threads|
  {
    if e.t < |m.threads| then
      StepKeepsInv(m, e.t, e.choice);
      Step(m, e.t, e.choice)
    else m
  }

  ghost function Fresh(threads: nat, conds: nat): (m: Monitor)
    ensures Inv(m) && |m.threads| == threads && m.tickets == []
  {
    Monitor(Sem(1, [], {}), None, seq(threads, _ => Out), seq(conds, _ => []), [])
  }

  /** At most one thread is between `Acquire` and `Release`, and `lockOwner`, when set, is that thread. */
  lemma MutualExclusion(threads: nat, conds: nat, schedule: seq<Event>, t: Tid, u: Tid)
    requires t < threads && u < threads
    ensures
      var m := Run(Fresh(threads, conds), schedule);
      && (Holds(m.threads[t]) && Holds(m.threads[u]) ==> t == u)
      && (Owns(m.threads[t]) <==> m.owner == Some(t))
      && (m.lock.value == 0 || m.lock.value == 1)
      && (m.lock.value == 1 <==> forall v :: 0 <= v < threads ==> !Holds(m.threads[v]))
  {
  }

  /** `Acquire` never finds its caller holding the lock; `Release`, `Wait` and `Signal` always do. */
  lemma AssertionsHold(m: Monitor, t: Tid)
    requires Inv(m) && t < |m.threads|
    ensures m.threads[t] == Out || m.threads[t].WaitDown? ==> m.owner != Some(t)
    ensures m.threads[t] == In || m.threads[t].WaitRelease? ==> m.owner == Some(t)
  {
  }

  /**
   A signal wakes its waiter exactly once wherever it lands: once the ticket has been
   raised the waiter is not asleep on it, its next pass through `P` succeeds, and
   there is no second signal for the ticket; and without a signal nobody passes.
   */
  lemma SignalWakesOnce(m: Monitor, n: nat)
    requires Inv(m) && n < |m.tickets|
    ensures
      var k := m.tickets[n];
      && k.downs <= k.ups <= k.pops <= 1
      && (k.ups == 1 && k.downs == 0 ==>
           && k.waiter < |m.threads| && AtWait(m.threads[k.waiter], n) && k.waiter !in k.sem.queue && Succeeds(k.sem)
           && (m.threads[k.waiter] == WaitDown(n) ==>
                Shape(m) && Step(m, k.waiter, Stay).threads[k.waiter] == Acquiring))
  {
    assert TicketOk(m, n);
    InvHasShape(m);
  }

  /** What a step leaves of the history of a ticket. */
  lemma StepKeepsTicket(m: Monitor, t: Tid, choice: Choice, n: nat)
    requires Inv(m) && t < |m.threads| && n < |m.tickets|
    ensures
      Shape(m)
      && var r := Step(m, t, choice);
         && n < |r.tickets| && r.tickets[n].waiter == m.tickets[n].waiter && r.tickets[n].cond == m.tickets[n].cond
         && r.tickets[n].pops >= m.tickets[n].pops && r.tickets[n].ups >= m.tickets[n].ups
         && r.tickets[n].downs >= m.tickets[n].downs
  {
    InvHasShape(m);
    assert InRange(m.threads[t], |m.tickets|);
  }

  /** A signal that came before its waiter reached `P` is never taken back or repeated. */
  lemma {:induction false} EarlySignalIsKept(m: Monitor, n: nat, schedule: seq<Event>)
    requires Inv(m) && n < |m.tickets| && m.tickets[n].pops == 1
    ensures
      var r := Run(m, schedule);
      && n < |r.tickets| && r.tickets[n].waiter == m.tickets[n].waiter
      && r.tickets[n].pops == 1 && r.tickets[n].ups >= m.tickets[n].ups && r.tickets[n].downs >= m.tickets[n].downs
  {
    hide LockInv, Step;
    if schedule != [] {
      EarlySignalIsKept(m, n, schedule[..|schedule| - 1]);
      var before, e := Run(m, schedule[..|schedule| - 1]), schedule[|schedule| - 1];
      assert Run(m, schedule) == Next(before, e);
      if e.t < |before.threads| {
        StepKeepsTicket(before, e.t, e.choice, n);
      }
      assert TicketOk(Run(m, schedule), n);
    }
  }

  // ---------- broadcasting ----------

  /** Only the holder of the lock changes the queues of waiters. */
  lemma OthersLeaveQueues(m: Monitor, t: Tid, u: Tid, choice: Choice)
    requires Inv(m) && t < |m.threads| && u < |m.threads| && u != t && Holds(m.threads[t])
    ensures Shape(m) && Step(m, u, choice).conds == m.conds && Step(m, u, choice).threads[t] == m.threads[t]
  {
    InvHasShape(m);
    var h :| SoleHolder(m.threads, h);
    assert h == t && !Holds(m.threads[u]);
  }

  /** Nor do they pop or raise tickets or take new ones. */
  lemma OthersLeaveTickets(m: Monitor, t: Tid, u: Tid, choice: Choice)
    requires Inv(m) && t < |m.threads| && u < |m.threads| && u != t && Holds(m.threads[t])
    ensures
      Shape(m)
      && var r := Step(m, u, choice);
         && |r.tickets| == |m.tickets|
         && forall n :: 0 <= n < |m.tickets| ==>
           r.tickets[n].pops == m.tickets[n].pops && r.tickets[n].ups == m.tickets[n].ups
  {
    InvHasShape(m);
    var h :| SoleHolder(m.threads, h);
    assert h == t && !Holds(m.threads[u]);
    assert InRange(m.threads[u], |m.tickets|);
    hide Inv, Shape, Down;
  }

  /** How many turns `t` gets. */
  function Turns(schedule: seq<Event>, t: Tid): nat {
    if schedule == [] then 0
    else Turns(schedule[..|schedule| - 1], t) + if schedule[|schedule| - 1].t == t then 1 else 0
  }

  /** `t` is in the loop of `Broadcast`; the others do what they like. */
  ghost predicate Broadcasts(schedule: seq<Event>, t: Tid, c: nat) {
    forall i :: 0 <= i < |schedule| && schedule[i].t == t ==> schedule[i].choice == SignalOn(c)
  }

  /**
   Since `start`, `popped` of the waiters have been taken off the queue and `raised` of the tickets
   raised, in order.
   */
  ghost predicate Woken(start: Monitor, m: Monitor, c: nat, popped: nat, raised: nat)
    requires c < |start.conds|
  {
    var q := start.conds[c];
    && raised <= popped <= |q| && m.conds == start.conds[c := q[popped..]] && |m.tickets| == |start.tickets|
    && (forall i :: 0 <= i < |q| && q[i] < |m.tickets| ==>
         && m.tickets[q[i]].pops == (if i < popped then 1 else 0)
         && m.tickets[q[i]].ups == (if i < raised then 1 else 0))
    && (forall n :: 0 <= n < |m.tickets| && n !in q ==>
         m.tickets[n].pops == start.tickets[n].pops && m.tickets[n].ups == start.tickets[n].ups)
  }

  /** The loop of `Broadcast` after `k` turns: two for each waiter. */
  ghost predicate Broadcasting(start: Monitor, m: Monitor, t: Tid, c: nat, k: nat)
    requires c < |start.conds|
  {
    var q := start.conds[c];
    && t < |m.threads|
    && (if k >= 2 * |q| then m.threads[t] == In && Woken(start, m, c, |q|, |q|)
        else if k % 2 == 0 then m.threads[t] == In && Woken(start, m, c, k / 2, k / 2)
        else m.threads[t] == Signalling(q[k / 2]) && Woken(start, m, c, k / 2 + 1, k / 2))
  }

  lemma NobodyWoken(m: Monitor, c: nat)
    requires Inv(m) && c < |m.conds|
    ensures Woken(m, m, c, 0, 0)
  {
    var q := m.conds[c];
    assert CondOk(m, c) && q[0..] == q && m.conds[c := q] == m.conds;
    forall i | 0 <= i < |q|
      ensures q[i] < |m.tickets| && m.tickets[q[i]].pops == m.tickets[q[i]].ups == 0
    {
      assert q[i] in q && TicketOk(m, q[i]);
    }
  }

  lemma PopsNext(start: Monitor, m: Monitor, t: Tid, c: nat, k: nat)
    requires c < |start.conds| && Distinct(start.conds[c]) && k < |start.conds[c]| && Woken(start, m, c, k, k)
    requires Shape(m) && t < |m.threads| && m.threads[t] == In
    ensures
      var r := Step(m, t, SignalOn(c));
      Woken(start, r, c, k + 1, k) && t < |r.threads| && r.threads[t] == Signalling(start.conds[c][k])
  {
    var q := start.conds[c];
    assert m.conds[c] == q[k..] && m.conds[c][0] == q[k];
    assert q[k..][1..] == q[k + 1..];
    assert Step(m, t, SignalOn(c)) == Pop(m, t, c);
  }

  lemma RaisesNext(start: Monitor, m: Monitor, t: Tid, c: nat, k: nat, choice: Choice)
    requires c < |start.conds| && Distinct(start.conds[c]) && k < |start.conds[c]| && Woken(start, m, c, k + 1, k)
    requires Shape(m) && t < |m.threads| && m.threads[t] == Signalling(start.conds[c][k])
    ensures
      var r := Step(m, t, choice);
      Woken(start, r, c, k + 1, k + 1) && t < |r.threads| && r.threads[t] == In
  {
    var q := start.conds[c];
    assert InRange(m.threads[t], |m.tickets|);
    assert Step(m, t, choice) == Raise(m, t, q[k]);
  }

  lemma BroadcastTurn(start: Monitor, m: Monitor, t: Tid, c: nat, k: nat)
    requires c < |start.conds| && Distinct(start.conds[c]) && Shape(m) && Broadcasting(start, m, t, c, k)
    ensures Broadcasting(start, Step(m, t, SignalOn(c)), t, c, k + 1)
  {
    hide Shape, Step, Woken, Distinct;
    if k >= 2 * |start.conds[c]| {
      BroadcastIsOver(start, m, t, c);
    } else if k % 2 == 0 {
      PopsNext(start, m, t, c, k / 2);
    } else {
      RaisesNext(start, m, t, c, k / 2, SignalOn(c));
    }
  }

  lemma BroadcastIsOver(start: Monitor, m: Monitor, t: Tid, c: nat)
    requires c < |start.conds| && Shape(m) && t < |m.threads| && m.threads[t] == In
    requires Woken(start, m, c, |start.conds[c]|, |start.conds[c]|)
    ensures Step(m, t, SignalOn(c)) == m
  {
  }

  lemma BroadcastMeanwhile(start: Monitor, m: Monitor, t: Tid, c: nat, k: nat, u: Tid, choice: Choice)
    requires c < |start.conds| && Inv(m) && u < |m.threads| && u != t && Broadcasting(start, m, t, c, k)
    ensures Shape(m) && Broadcasting(start, Step(m, u, choice), t, c, k)
  {
    OthersLeaveQueues(m, t, u, choice);
    OthersLeaveTickets(m, t, u, choice);
    hide Inv, Shape, Step, LockInv, WaitInv;
  }

  lemma {:induction false} BroadcastGoesOn(m: Monitor, t: Tid, c: nat, schedule: seq<Event>)
    requires Inv(m) && t < |m.threads| && m.threads[t] == In && c < |m.conds| && Broadcasts(schedule, t, c)
    ensures Broadcasting(m, Run(m, schedule), t, c, Turns(schedule, t))
  {
    hide Shape, Woken, Step, Broadcasting, LockInv, WaitInv;
    if schedule == [] {
      BroadcastStarts(m, t, c);
    } else {
      var front, e := schedule[..|schedule| - 1], schedule[|schedule| - 1];
      BroadcastGoesOn(m, t, c, front);
      var before, k := Run(m, front), Turns(front, t);
      assert Run(m, schedule) == Next(before, e);
      if e.t == t {
        StepKeepsInv(before, t, e.choice);
        DistinctQueue(m, c);
        BroadcastTurn(m, before, t, c, k);
      } else if e.t < |before.threads| {
        BroadcastMeanwhile(m, before, t, c, k, e.t, e.choice);
      }
    }
  }

  lemma BroadcastStarts(m: Monitor, t: Tid, c: nat)
    requires Inv(m) && t < |m.threads| && m.threads[t] == In && c < |m.conds|
    ensures Broadcasting(m, m, t, c, 0)
  {
    NobodyWoken(m, c);
  }

  lemma DistinctQueue(m: Monitor, c: nat)
    requires Inv(m) && c < |m.conds|
    ensures Distinct(m.conds[c])
  {
    assert CondOk(m, c);
  }

  /**
   `Broadcast`, whatever the other threads do meanwhile: once it has had two turns for each
   waiter, and not before, nobody is queued; everyone who was waiting has been woken once,
   and no other ticket, queue or new waiter has been touched or let in.
   */
  lemma BroadcastWakesAll(m: Monitor, t: Tid, c: nat, schedule: seq<Event>)
    requires Inv(m) && t < |m.threads| && m.threads[t] == In && c < |m.conds| && Broadcasts(schedule, t, c)
    ensures
      var r := Run(m, schedule);
      && |r.conds| == |m.conds| && |r.tickets| == |m.tickets|
      && (r.conds[c] == [] && r.threads[t] == In <==> Turns(schedule, t) >= 2 * |m.conds[c]|)
      && (Turns(schedule, t) >= 2 * |m.conds[c]| ==>
           && r.conds == m.conds[c := []]
           && forall n :: 0 <= n < |m.tickets| ==>
                if n in m.conds[c] then r.tickets[n].pops == 1 && r.tickets[n].ups == 1
                else r.tickets[n].pops == m.tickets[n].pops && r.tickets[n].ups == m.tickets[n].ups)
  {
    BroadcastGoesOn(m, t, c, schedule);
    hide Inv, Run;
  }

  // ---------- in the order of arrival ----------

  lemma LockMoves(m: Monitor, e: Event)
    requires Inv(m)
    ensures SemOk(m.lock) && Moves(m.lock, Next(m, e).lock)
  {
    hide WaitInv, Down, Up, SemOk;
    if e.t < |m.threads| {
      StepKeepsInv(m, e.t, e.choice);
      var m' := Step(m, e.t, e.choice);
      assert m'.lock == m.lock || m'.lock == Up(m.lock) || (e.t !in m.lock.queue && m'.lock == Down(m.lock, e.t));
    }
  }

  /** The lock's semaphore after 0, 1, 2 and so on events. */
  ghost function LockTrace(m: Monitor, schedule: seq<Event>): (trace: seq<Sem>)
    requires Inv(m)
    ensures |trace| == |schedule| + 1
  {
    seq(|schedule| + 1, n requires 0 <= n <= |schedule| => Run(m, schedule[..n]).lock)
  }

  lemma LockIsTraced(m: Monitor, schedule: seq<Event>)
    requires Inv(m)
    ensures Traced(LockTrace(m, schedule))
  {
    hide Inv, SemOk, Moves;
    forall n | 0 <= n < |schedule|
      ensures SemOk(LockTrace(m, schedule)[n]) && Moves(LockTrace(m, schedule)[n], LockTrace(m, schedule)[n + 1])
    {
      LockMoves(Run(m, schedule[..n]), schedule[n]);
      assert schedule[..n + 1][..n] == schedule[..n];
    }
  }

  /** In every schedule the lock wakes those who sleep in `Acquire` in the order in which they fell asleep. */
  lemma LockIsFair(threads: nat, conds: nat, schedule: seq<Event>, i: nat, j: nat, k: nat, t: Tid, u: Tid)
    requires i < j < k < |schedule|
    requires
      var trace := LockTrace(Fresh(threads, conds), schedule);
      AsleepSince(trace, i, k, t) && AsleepSince(trace, j, k, u) && u !in trace[j].queue
    ensures u in Run(Fresh(threads, conds), schedule[..k + 1]).lock.queue
  {
    hide Inv, Run, Traced, AsleepSince;
    LockIsTraced(Fresh(threads, conds), schedule);
    WokenInOrder(LockTrace(Fresh(threads, conds), schedule), i, j, k, t, u);
  }

  /** Tickets are numbered in the order of the calls of `Wait`, and queued in that order. */
  ghost predicate InOrder(m: Monitor) {
    forall c, i, j :: 0 <= c < |m.conds| && 0 <= i < j < |m.conds[c]| ==> m.conds[c][i] < m.conds[c][j]
  }

  lemma NextKeepsOrder(m: Monitor, e: Event)
    requires Inv(m) && InOrder(m)
    ensures InOrder(Next(m, e))
  {
    InvHasShape(m);
    hide Inv, LockInv, WaitInv, Down, Up;
    if e.t < |m.threads| {
      assert InRange(m.threads[e.t], |m.tickets|);
    }
  }

  lemma {:induction false} RunKeepsOrder(m: Monitor, schedule: seq<Event>)
    requires Inv(m) && InOrder(m)
    ensures InOrder(Run(m, schedule))
  {
    hide Inv, InOrder;
    if schedule != [] {
      RunKeepsOrder(m, schedule[..|schedule| - 1]);
      NextKeepsOrder(Run(m, schedule[..|schedule| - 1]), schedule[|schedule| - 1]);
    }
  }

  lemma SignalTakesLeast(m: Monitor, t: Tid, c: nat)
    requires Inv(m) && InOrder(m) && t < |m.threads| && m.threads[t] == In && c < |m.conds| && m.conds[c] != []
    ensures
      var r := Next(m, Event(t, SignalOn(c)));
      && r.threads[t].Signalling? && r.threads[t].n in m.conds[c]
      && forall n :: n in m.conds[c] ==> r.threads[t].n <= n
  {
    InvHasShape(m);
    hide LockInv, WaitInv;
    assert Next(m, Event(t, SignalOn(c))) == Pop(m, t, c);
  }

  /** In every schedule `Signal` goes to the one of the waiters that has waited longest. */
  lemma SignalsInOrder(threads: nat, conds: nat, schedule: seq<Event>, t: Tid, c: nat)
    requires t < threads && c < conds
    ensures
      var m := Run(Fresh(threads, conds), schedule);
      && |m.conds| == conds
      && (m.threads[t] == In && m.conds[c] != [] ==>
           var r := Next(m, Event(t, SignalOn(c)));
           && r.threads[t].Signalling? && r.threads[t].n in m.conds[c]
           && forall n :: n in m.conds[c] ==> r.threads[t].n <= n)
  {
    hide Inv, Run, Next;
    var m := Run(Fresh(threads, conds), schedule);
    RunKeepsOrder(Fresh(threads, conds), schedule);
    CondsStay(Fresh(threads, conds), schedule);
    if m.threads[t] == In && m.conds[c] != [] {
      SignalTakesLeast(m, t, c);
    }
  }

  lemma NextKeepsConds(m: Monitor, e: Event)
    requires Inv(m)
    ensures |Next(m, e).conds| == |m.conds|
  {
    InvHasShape(m);
    hide LockInv, WaitInv, Down, Up;
  }

  lemma {:induction false} CondsStay(m: Monitor, schedule: seq<Event>)
    requires Inv(m)
    ensures |Run(m, schedule).conds| == |m.conds|
  {
    hide Inv, Next;
    if schedule != [] {
      CondsStay(m, schedule[..|schedule| - 1]);
      NextKeepsConds(Run(m, schedule[..|schedule| - 1]), schedule[|schedule| - 1]);
    }
  }
}
