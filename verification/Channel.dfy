/**
 Channels and synchronized lists: a queue of messages under one lock, with a
 condition for receivers and, in a channel, one for senders.  Any number of threads
 call the two operations over and over, under any schedule.
 */
module Channels {
  import opened Semaphores
  import M = Monitors

  const RECEIVERS := 0
  const SENDERS := 1

  /** How far a thread is with its call; the position inside the lock operations is the monitor's. */
  datatype Call =
    | Idle
    | SendStart(msg: int)                                        // about to append
    | SendSignal(k: nat, first: bool)                            // message `k` appended, `first` if to an empty mailbox
    | SendLook(k: nat, first: bool)                              // signalled, about to look at the head
    | SendTest(k: nat, first: bool, b: int, seen: nat, again: bool)  // at the loop; the head seen was message `seen`
    | SendDone(k: nat, first: bool, seen: nat)                   // out of the loop
    | ReceiveTest(again: bool)                                   // at the loop, `again` after a wait
    | ReceivePop(again: bool)                                    // out of the loop
    | ReceiveSignal                                              // has its message
    | Closing                                                    // about to release the lock

  datatype Kind = Channel | SynchList

  /** `sent` and `received` record all messages so far. */
  datatype State = State(kind: Kind, m: M.Monitor, mailbox: seq<int>, sent: seq<int>, received: seq<int>,
    calls: seq<Call>)

  datatype Request = Send(msg: int) | Receive

  predicate Shape(s: State) {
    M.Shape(s.m) && |s.calls| == |s.m.threads|
  }

  function Calls(s: State, t: Tid, call: Call): State
    requires t < |s.calls|
  {
    s.(calls := s.calls[t := call])
  }

  function Started(request: Request): Call {
    if request.Send? then SendStart(request.msg) else ReceiveTest(false)
  }

  /** A thread moves; an idle one starts a call. */
  function Step(s: State, t: Tid, request: Request): State
    requires Shape(s) && t < |s.calls|
  {
    match s.m.threads[t]
    case Out =>
      if s.calls[t] != Idle then s
      else
        Calls(s, t, Started(request)).(m := M.Step(s.m, t, M.Enter))
    case In => Inside(s, t)
    case _ => s.(m := M.Step(s.m, t, M.Stay))
  }

  /** One statement of `Send` or `Receive`, with the lock held. */
  function Inside(s: State, t: Tid): State
    requires Shape(s) && t < |s.calls| && s.m.threads[t] == M.In
  {
    match s.calls[t]
    case SendStart(msg) =>
      Calls(s, t, SendSignal(|s.sent|, s.mailbox == [])).(mailbox := s.mailbox + [msg], sent := s.sent + [msg])
    case SendSignal(k, first) =>
      Calls(s, t, if s.kind == Channel then SendLook(k, first) else Closing)
        .(m := M.Step(s.m, t, M.SignalOn(RECEIVERS)))
    case SendLook(k, first) =>
      if s.mailbox == [] then s else Calls(s, t, SendTest(k, first, s.mailbox[0], |s.received|, false))
    case SendTest(k, first, b, seen, _) =>
      if s.mailbox != [] && b == s.mailbox[0] then
        Calls(s, t, SendTest(k, first, b, seen, true)).(m := M.Step(s.m, t, M.WaitOn(SENDERS)))
      else Calls(s, t, SendDone(k, first, seen))
    case SendDone(_, _, _) => Calls(s, t, Idle).(m := M.Step(s.m, t, M.Leave))
    case ReceiveTest(again) =>
      if s.mailbox == [] then Calls(s, t, ReceiveTest(true)).(m := M.Step(s.m, t, M.WaitOn(RECEIVERS)))
      else Calls(s, t, ReceivePop(again))
    case ReceivePop(_) =>
      if s.mailbox == [] then s
      else
        Calls(s, t, if s.kind == Channel then ReceiveSignal else Closing)
        .(mailbox := s.mailbox[1..], received := s.received + [s.mailbox[0]])
    case ReceiveSignal => Calls(s, t, Closing).(m := M.Step(s.m, t, M.SignalOn(SENDERS)))
    case Closing => Calls(s, t, Idle).(m := M.Step(s.m, t, M.Leave))
    case Idle => s
  }

  // ---------- what each thread relies on ----------

  predicate Entering(pc: M.Pc) {
    pc.Acquiring? || pc.Acquired? || pc.In?
  }

  /** Coming in, or waiting on condition `c`. */
  predicate EnteringOrWaiting(m: M.Monitor, pc: M.Pc, c: nat) {
    || Entering(pc)
    || ((pc.WaitRelease? || pc.WaitUp? || pc.WaitDown?) && pc.n < |m.tickets| && m.tickets[pc.n].cond == c)
  }

  ghost predicate CallOk(s: State, t: Tid)
    requires t < |s.calls| == |s.m.threads|
  {
    var pc := s.m.threads[t];
    match s.calls[t]
    case Idle => pc.Out? || pc.Releasing?
    case SendStart(_) => Entering(pc)
    case SendSignal(k, first) => pc.In? && k < |s.sent| && s.mailbox != [] && (first ==> |s.received| == k)
    case SendLook(k, first) =>
      (pc.In? || pc.Signalling?) && k < |s.sent| && s.mailbox != [] && (first ==> |s.received| == k)
    case SendTest(k, first, b, seen, _) =>
      && EnteringOrWaiting(s.m, pc, SENDERS) && k < |s.sent|
      && seen <= |s.received| && seen < |s.sent| && b == s.sent[seen] && (first ==> k == seen)
    case SendDone(k, first, seen) => pc.In? && seen < |s.received| && (first ==> k == seen)
    case ReceiveTest(again) => if again then EnteringOrWaiting(s.m, pc, RECEIVERS) else Entering(pc)
    case ReceivePop(_) => pc.In? && s.mailbox != []
    case ReceiveSignal => pc.In?
    case Closing => pc.In? || pc.Signalling?
  }

  ghost predicate Inv(s: State) {
    && M.Inv(s.m) && |s.m.conds| == 2 && Shape(s)
    && s.sent == s.received + s.mailbox
    && forall t :: 0 <= t < |s.calls| ==> CallOk(s, t)
  }

  /** Nothing that another thread relies on changes: messages move only under the lock. */
  ghost predicate Leaves(s: State, s': State, t: Tid)
    requires t < |s.calls| == |s.m.threads|
  {
    && |s'.calls| == |s'.m.threads| == |s.calls|
    && (forall u :: 0 <= u < |s.calls| && u != t ==> s'.calls[u] == s.calls[u] && s'.m.threads[u] == s.m.threads[u])
    && |s.m.tickets| <= |s'.m.tickets|
    && (forall n :: 0 <= n < |s.m.tickets| ==> s'.m.tickets[n].cond == s.m.tickets[n].cond)
    && s.sent <= s'.sent && s.received <= s'.received
    && (M.Holds(s.m.threads[t]) || (s'.mailbox == s.mailbox && s'.sent == s.sent && s'.received == s.received))
  }

  lemma OthersStayOk(s: State, s': State, t: Tid, u: Tid)
    requires Inv(s) && t < |s.calls| && u < |s.calls| && u != t && Leaves(s, s', t)
    ensures CallOk(s', u)
  {
    assert CallOk(s, u);
    assert !(M.Holds(s.m.threads[t]) && M.Holds(s.m.threads[u]));
  }

  /** A monitor step changes the position of its own thread only, and keeps tickets. */
  lemma MonitorFrame(m: M.Monitor, t: Tid, choice: M.Choice)
    requires M.Inv(m) && t < |m.threads|
    ensures
      M.Shape(m)
      && var r := M.Step(m, t, choice);
         && M.Inv(r) && M.Shape(r) && |r.threads| == |m.threads| && |r.conds| == |m.conds|
         && |m.tickets| <= |r.tickets|
         && (forall u :: 0 <= u < |m.threads| && u != t ==> r.threads[u] == m.threads[u])
         && (forall n :: 0 <= n < |m.tickets| ==> r.tickets[n].cond == m.tickets[n].cond)
  {
    M.StepKeepsInv(m, t, choice);
    M.InvHasShape(M.Step(m, t, choice));
    hide M.LockInv, M.WaitInv, Down, Up;
    assert M.InRange(m.threads[t], |m.tickets|);
  }

  lemma StepKeepsInv(s: State, t: Tid, request: Request)
    requires Inv(s) && t < |s.calls|
    ensures Inv(Step(s, t, request))
  {
    hide M.LockInv, M.WaitInv, M.Step, CallOk;
    var s' := Step(s, t, request);
    forall choice
      ensures var r := M.Step(s.m, t, choice);
         && M.Inv(r) && M.Shape(r) && |r.threads| == |s.m.threads| && |r.conds| == |s.m.conds|
    {
      MonitorFrame(s.m, t, choice);
    }
    StepLeaves(s, t, request);
    OwnCallOk(s, t, request);
    forall u | 0 <= u < |s.calls|
      ensures CallOk(s', u)
    {
      if u != t {
        OthersStayOk(s, s', t, u);
      }
    }
  }

  lemma StepLeaves(s: State, t: Tid, request: Request)
    requires Inv(s) && t < |s.calls|
    ensures Leaves(s, Step(s, t, request), t)
  {
    hide M.LockInv, M.WaitInv, M.Step, CallOk;
    if s.m.threads[t] == M.In {
      InsideLeaves(s, t);
    } else {
      MonitorFrame(s.m, t, M.Stay);
      MonitorFrame(s.m, t, M.Enter);
    }
  }

  lemma InsideLeaves(s: State, t: Tid)
    requires Inv(s) && t < |s.calls| && s.m.threads[t] == M.In
    ensures Leaves(s, Inside(s, t), t)
  {
    hide M.LockInv, M.WaitInv, M.Step, CallOk;
    match s.calls[t]
    case SendSignal(_, _) => MonitorFrame(s.m, t, M.SignalOn(RECEIVERS));
    case ReceiveSignal => MonitorFrame(s.m, t, M.SignalOn(SENDERS));
    case SendTest(_, _, _, _, _) => MonitorFrame(s.m, t, M.WaitOn(SENDERS));
    case ReceiveTest(_) => MonitorFrame(s.m, t, M.WaitOn(RECEIVERS));
    case SendDone(_, _, _) => MonitorFrame(s.m, t, M.Leave);
    case Closing => MonitorFrame(s.m, t, M.Leave);
    case _ =>
  }

  lemma OwnCallOk(s: State, t: Tid, request: Request)
    requires Inv(s) && t < |s.calls|
    ensures
      var s' := Step(s, t, request);
      |s'.calls| == |s'.m.threads| == |s.calls| && s'.sent == s'.received + s'.mailbox && CallOk(s', t)
  {
    hide M.LockInv, M.WaitInv;
    assert CallOk(s, t);
    if s.m.threads[t] == M.In {
      OwnCallOkInside(s, t);
    }
  }

  lemma OwnCallOkInside(s: State, t: Tid)
    requires Inv(s) && t < |s.calls| && s.m.threads[t] == M.In
    ensures
      var s' := Inside(s, t);
      |s'.calls| == |s'.m.threads| == |s.calls| && s'.sent == s'.received + s'.mailbox && CallOk(s', t)
  {
    hide *;
    if UsesMonitor(s.calls[t]) {
      OwnLockCallOk(s, t);
    } else {
      OwnPlainCallOk(s, t);
    }
  }

  /** Calls whose next statement is an operation on the lock or a condition. */
  predicate UsesMonitor(call: Call) {
    call.SendSignal? || call.SendDone? || call.ReceiveSignal? || call.Closing? || call.SendTest? || call.ReceiveTest?
  }

  lemma OwnLockCallOk(s: State, t: Tid)
    requires Inv(s) && t < |s.calls| && s.m.threads[t] == M.In && UsesMonitor(s.calls[t])
    ensures
      var s' := Inside(s, t);
      |s'.calls| == |s'.m.threads| == |s.calls| && s'.sent == s'.received + s'.mailbox && CallOk(s', t)
  {
    hide M.LockInv, M.WaitInv, M.Shape;
    assert CallOk(s, t);
  }

  lemma OwnPlainCallOk(s: State, t: Tid)
    requires Inv(s) && t < |s.calls| && s.m.threads[t] == M.In && !UsesMonitor(s.calls[t])
    ensures
      var s' := Inside(s, t);
      |s'.calls| == |s'.m.threads| == |s.calls| && s'.sent == s'.received + s'.mailbox && CallOk(s', t)
  {
    hide M.LockInv, M.WaitInv, M.Step;
    assert CallOk(s, t);
  }

  // ---------- no receiver is left asleep ----------

  /** Asleep, or bound to be, with nothing on its way to wake it. */
  predicate Waits(m: M.Monitor, pc: M.Pc) {
    (pc.WaitRelease? || pc.WaitUp? || pc.WaitDown?) && pc.n < |m.tickets| && m.tickets[pc.n].pops == 0
  }

  /** A receiver that was signalled and has not taken a message or gone back to wait since. */
  predicate WokenReceiver(s: State, t: Tid)
    requires t < |s.calls| == |s.m.threads|
  {
    s.calls[t] == ReceivePop(true) || (s.calls[t] == ReceiveTest(true) && !Waits(s.m, s.m.threads[t]))
  }

  /** Threads that account for a message: a woken receiver, or a sender about to signal. */
  predicate Accounts(s: State, t: Tid)
    requires t < |s.calls| == |s.m.threads|
  {
    WokenReceiver(s, t) || s.calls[t].SendSignal?
  }

  function Accounted(s: State): seq<bool>
    requires |s.calls| == |s.m.threads|
  {
    seq(|s.calls|, t requires 0 <= t < |s.calls| => Accounts(s, t))
  }

  function Count(flags: seq<bool>): nat {
    if flags == [] then 0 else Count(flags[..|flags| - 1]) + if flags[|flags| - 1] then 1 else 0
  }

  lemma {:induction false} CountAfter(flags: seq<bool>, t: nat, flag: bool)
    requires t < |flags|
    ensures Count(flags[t := flag]) == Count(flags) + (if flag then 1 else 0) - (if flags[t] then 1 else 0)
  {
    var n := |flags| - 1;
    if t < n {
      CountAfter(flags[..n], t, flag);
      assert flags[t := flag][..n] == flags[..n][t := flag];
    } else {
      assert flags[t := flag][..n] == flags[..n];
    }
  }

  /** While a receiver waits, every message is accounted for. */
  ghost predicate NoneStranded(s: State)
    requires |s.calls| == |s.m.threads| && |s.m.conds| == 2
  {
    s.m.conds[RECEIVERS] != [] ==> |s.mailbox| <= Count(Accounted(s))
  }

  /** Threads other than `t` account for a message as before. */
  ghost predicate OthersAccount(s: State, s': State, t: Tid)
    requires |s.calls| == |s.m.threads| == |s'.calls| == |s'.m.threads|
  {
    forall u :: 0 <= u < |s.calls| && u != t ==> Accounts(s', u) == Accounts(s, u)
  }

  lemma OneAccountChanges(s: State, s': State, t: Tid)
    requires |s.calls| == |s.m.threads| == |s'.calls| == |s'.m.threads| && t < |s.calls| && OthersAccount(s, s', t)
    ensures Count(Accounted(s'))
      == Count(Accounted(s)) + (if Accounts(s', t) then 1 else 0) - (if Accounts(s, t) then 1 else 0)
  {
    CountAfter(Accounted(s), t, Accounts(s', t));
    assert Accounted(s)[t := Accounts(s', t)] == Accounted(s');
  }

  /** Only a signal changes whether a ticket has been popped, and only that of the first in line. */
  lemma OnlySignalPops(m: M.Monitor, t: Tid, choice: M.Choice, n: nat)
    requires M.Shape(m) && t < |m.threads| && n < |m.tickets|
    ensures
      var r := M.Step(m, t, choice);
      && n < |r.tickets|
      && (r.tickets[n].pops == m.tickets[n].pops
          || (m.threads[t] == M.In && choice.SignalOn? && choice.c < |m.conds| && m.conds[choice.c] != []
              && m.conds[choice.c][0] == n))
  {
    assert M.InRange(m.threads[t], |m.tickets|);
  }

  /** What a step other than a signal to receivers does to the accounts of others: nothing. */
  lemma MonitorKeepsWaits(m: M.Monitor, t: Tid, choice: M.Choice, u: Tid)
    requires M.Inv(m) && t < |m.threads| && u < |m.threads| && u != t
    ensures
      M.Shape(m)
      && var r := M.Step(m, t, choice);
         && |r.threads| == |m.threads|
         && (Waits(r, r.threads[u]) == Waits(m, m.threads[u])
             || (m.threads[t] == M.In && choice.SignalOn? && choice.c < |m.conds| && m.conds[choice.c] != []
                 && m.conds[choice.c][0] < |m.tickets| && m.tickets[m.conds[choice.c][0]].waiter == u))
  {
    M.InvHasShape(m);
    assert M.ThreadOk(m, u);
    MonitorFrame(m, t, choice);
    hide M.Inv, M.Step;
    var pc := m.threads[u];
    if pc.WaitRelease? || pc.WaitUp? || pc.WaitDown? {
      OnlySignalPops(m, t, choice, pc.n);
    }
  }

  /** The first in line on condition `c` is waiting, with a call that waits there. */
  lemma FirstInLine(s: State, c: nat)
    requires Inv(s) && c < 2 && s.m.conds[c] != []
    ensures
      var n := s.m.conds[c][0];
      && n < |s.m.tickets| && s.m.tickets[n].waiter < |s.calls| && s.m.tickets[n].pops == 0
      && var u := s.m.tickets[n].waiter;
         && M.AtWait(s.m.threads[u], n)
         && s.calls[u] == (if c == RECEIVERS then ReceiveTest(true) else s.calls[u])
         && (c == SENDERS ==> s.calls[u].SendTest?)
  {
    var n := s.m.conds[c][0];
    assert M.CondOk(s.m, c) && n in s.m.conds[c];
    assert M.TicketOk(s.m, n);
    assert CallOk(s, s.m.tickets[n].waiter);
  }

  /** Signalling a receiver hands the account of the sender over to it. */
  lemma SignalKeepsAccounts(s: State, t: Tid)
    requires Inv(s) && NoneStranded(s) && t < |s.calls| && s.m.threads[t] == M.In && s.calls[t].SendSignal?
    ensures Inv(Inside(s, t)) && NoneStranded(Inside(s, t))
  {
    hide M.LockInv, M.WaitInv, CallOk, Count, Down, Up;
    StepKeepsInv(s, t, Receive);
    StepLeaves(s, t, Receive);
    var s' := Inside(s, t);
    if s.m.conds[RECEIVERS] != [] {
      FirstInLine(s, RECEIVERS);
      var n := s.m.conds[RECEIVERS][0];
      var u := s.m.tickets[n].waiter;
      forall v | 0 <= v < |s.calls| && v != t && v != u
        ensures Accounts(s', v) == Accounts(s, v)
      {
        MonitorKeepsWaits(s.m, t, M.SignalOn(RECEIVERS), v);
      }
      var flags := Accounted(s);
      CountAfter(flags, t, false);
      CountAfter(flags[t := false], u, true);
      assert Accounted(s') == flags[t := false][u := true];
    }
  }

  /** A step that does not signal a receiver leaves the accounts of others alone. */
  lemma StepKeepsOthersAccounts(s: State, t: Tid, request: Request)
    requires Inv(s) && t < |s.calls| && !(s.m.threads[t] == M.In && s.calls[t].SendSignal?)
    ensures Inv(Step(s, t, request)) && OthersAccount(s, Step(s, t, request), t)
  {
    StepKeepsInv(s, t, request);
    StepLeaves(s, t, request);
    hide M.LockInv, M.WaitInv, M.Step, CallOk, Inv;
    var s' := Step(s, t, request);
    forall u | 0 <= u < |s.calls| && u != t
      ensures Accounts(s', u) == Accounts(s, u)
    {
      if s'.m != s.m {
        WaitsStay(s, t, request, u);
      }
    }
  }

  lemma WaitsStay(s: State, t: Tid, request: Request, u: Tid)
    requires Inv(s) && t < |s.calls| && !(s.m.threads[t] == M.In && s.calls[t].SendSignal?) && u < |s.calls| && u != t
    ensures
      var s' := Step(s, t, request);
      |s'.m.threads| == |s.m.threads|
      && (Waits(s'.m, s'.m.threads[u]) == Waits(s.m, s.m.threads[u]) || s.calls[u].SendTest?)
  {
    hide M.LockInv, M.WaitInv, M.Step, CallOk;
    if s.m.threads[t] == M.In {
      match s.calls[t]
      case ReceiveSignal =>
        if s.m.conds[SENDERS] != [] {
          FirstInLine(s, SENDERS);
        }
        MonitorKeepsWaits(s.m, t, M.SignalOn(SENDERS), u);
      case SendTest(_, _, _, _, _) => MonitorKeepsWaits(s.m, t, M.WaitOn(SENDERS), u);
      case ReceiveTest(_) => MonitorKeepsWaits(s.m, t, M.WaitOn(RECEIVERS), u);
      case SendDone(_, _, _) => MonitorKeepsWaits(s.m, t, M.Leave, u);
      case Closing => MonitorKeepsWaits(s.m, t, M.Leave, u);
      case _ =>
    } else {
      MonitorKeepsWaits(s.m, t, M.Stay, u);
      MonitorKeepsWaits(s.m, t, M.Enter, u);
    }
  }

  /** What a step that signals no receiver does to the account of its own thread. */
  ghost predicate OwnAccountOk(s: State, s': State, t: Tid)
    requires t < |s.calls| == |s.m.threads| && |s.m.conds| == 2
  {
    && |s'.calls| == |s'.m.threads| == |s.calls| && |s'.m.conds| == 2
    && (s'.m.conds[RECEIVERS] == s.m.conds[RECEIVERS] || s'.mailbox == [])
    && (s'.mailbox == [] ||
        |s'.mailbox| - |s.mailbox| <= (if Accounts(s', t) then 1 else 0) - (if Accounts(s, t) then 1 else 0))
  }

  lemma OwnAccount(s: State, t: Tid, request: Request)
    requires Inv(s) && t < |s.calls| && !(s.m.threads[t] == M.In && s.calls[t].SendSignal?)
    ensures OwnAccountOk(s, Step(s, t, request), t)
  {
    hide M.LockInv, Down, Up, Inside;
    if s.m.threads[t] == M.In {
      OwnAccountInside(s, t);
    } else {
      assert CallOk(s, t) && M.ThreadOk(s.m, t);
      if s.m.threads[t].WaitDown? {
        assert M.TicketOk(s.m, s.m.threads[t].n);
      }
    }
  }

  lemma OwnAccountInside(s: State, t: Tid)
    requires Inv(s) && t < |s.calls| && s.m.threads[t] == M.In && !s.calls[t].SendSignal?
    ensures OwnAccountOk(s, Inside(s, t), t)
  {
    hide M.LockInv, M.TicketOk, M.CondOk, Down, Up;
    assert CallOk(s, t);
  }

  lemma StepStrandsNone(s: State, t: Tid, request: Request)
    requires Inv(s) && NoneStranded(s) && t < |s.calls|
    ensures Inv(Step(s, t, request)) && NoneStranded(Step(s, t, request))
  {
    if s.m.threads[t] == M.In && s.calls[t].SendSignal? {
      SignalKeepsAccounts(s, t);
    } else {
      StepKeepsOthersAccounts(s, t, request);
      hide M.LockInv, M.WaitInv, M.Step, CallOk, Inv, Step, Inside;
      OwnAccount(s, t, request);
      OneAccountChanges(s, Step(s, t, request), t);
    }
  }

  // ---------- every run ----------

  datatype Event = Event(t: Tid, request: Request)

  ghost predicate Good(s: State) {
    Inv(s) && NoneStranded(s)
  }

  /** Any number of threads, calling `Send` and `Receive` in any order under any schedule. */
  ghost function Run(s: State, schedule: seq<Event>): (r: State)
    requires Good(s)
    ensures Good(r) && |r.calls| == |s.calls| && r.kind == s.kind
  {
    if schedule == [] then s
    else
      var e := schedule[|schedule| - 1];
      var before := Run(s, schedule[..|schedule| - 1]);
      if e.t < |before.calls| then
        StepIsGood(before, e.t, e.request);
        Step(before, e.t, e.request)
      else before
  }

  lemma StepIsGood(s: State, t: Tid, request: Request)
    requires Good(s) && t < |s.calls|
    ensures var r := Step(s, t, request); Good(r) && |r.calls| == |s.calls| && r.kind == s.kind
  {
    hide M.LockInv, M.WaitInv, M.Step, CallOk;
    StepStrandsNone(s, t, request);
    StepLeaves(s, t, request);
  }

  ghost function Fresh(kind: Kind, threads: nat): (s: State)
    ensures Good(s)
  {
    var s := State(kind, M.Fresh(threads, 2), [], [], [], seq(threads, _ => Idle));
    M.InvHasShape(s.m);
    s
  }

  /** Messages arrive in order: none lost, none invented, none twice. */
  lemma DeliveredInOrder(kind: Kind, threads: nat, schedule: seq<Event>)
    ensures
      var s := Run(Fresh(kind, threads), schedule);
      s.received + s.mailbox == s.sent
  {
  }

  /** `Send` leaves its loop only after the message at the head, its own if the mailbox was empty, has been taken. */
  lemma SendWaitsForReceiver(kind: Kind, threads: nat, schedule: seq<Event>, t: Tid)
    requires t < |Run(Fresh(kind, threads), schedule).calls|
    ensures
      var s := Run(Fresh(kind, threads), schedule);
      s.calls[t].SendDone? ==>
        && s.calls[t].seen < |s.received|
        && (s.calls[t].first ==> s.calls[t].k < |s.received| && s.received[s.calls[t].k] == s.sent[s.calls[t].k])
  {
    var s := Run(Fresh(kind, threads), schedule);
    assert CallOk(s, t);
  }

  /** `Head` and `Pop` never meet an empty mailbox. */
  lemma NeverEmptyHanded(kind: Kind, threads: nat, schedule: seq<Event>, t: Tid)
    requires t < |Run(Fresh(kind, threads), schedule).calls|
    ensures
      var s := Run(Fresh(kind, threads), schedule);
      s.calls[t].SendLook? || s.calls[t].ReceivePop? ==> s.mailbox != []
  {
    var s := Run(Fresh(kind, threads), schedule);
    assert CallOk(s, t);
  }

  function WokenReceivers(s: State): seq<bool>
    requires |s.calls| == |s.m.threads|
  {
    seq(|s.calls|, t requires 0 <= t < |s.calls| => WokenReceiver(s, t))
  }

  lemma {:induction false} CountPointwise(a: seq<bool>, b: seq<bool>)
    requires |a| == |b| && forall i :: 0 <= i < |a| ==> a[i] ==> b[i]
    ensures Count(a) <= Count(b)
  {
    if a != [] {
      CountPointwise(a[..|a| - 1], b[..|b| - 1]);
    }
  }

  /** At most one sender is between appending and signalling. */
  lemma AccountsAreWoken(s: State)
    requires Inv(s)
    ensures Count(Accounted(s)) <= Count(WokenReceivers(s)) + 1
    ensures (forall t :: 0 <= t < |s.calls| ==> !s.calls[t].SendSignal?) ==>
      Count(Accounted(s)) <= Count(WokenReceivers(s))
  {
    var flags, woken := Accounted(s), WokenReceivers(s);
    if t :| 0 <= t < |s.calls| && s.calls[t].SendSignal? {
      CountAfter(flags, t, false);
      forall u | 0 <= u < |s.calls| && flags[t := false][u]
        ensures woken[u]
      {
        assert CallOk(s, u) && CallOk(s, t);
      }
      CountPointwise(flags[t := false], woken);
    } else {
      CountPointwise(flags, woken);
    }
  }

  /**
   While a receiver is asleep with nobody about to signal it, there are no more
   messages than receivers on their way to fetch one.
   */
  lemma NoReceiverStranded(kind: Kind, threads: nat, schedule: seq<Event>)
    ensures
      var s := Run(Fresh(kind, threads), schedule);
      s.m.conds[RECEIVERS] != [] ==>
        && |s.mailbox| <= Count(WokenReceivers(s)) + 1
        && ((forall t :: 0 <= t < |s.calls| ==> !s.calls[t].SendSignal?) ==> |s.mailbox| <= Count(WokenReceivers(s)))
  {
    AccountsAreWoken(Run(Fresh(kind, threads), schedule));
  }
}
