/**
 What a channel does for its senders.  A sender that is woken always finds that the
 message it saw at the head has been taken; but it compares values, so it may go
 back to sleep because an equal message has come up.  If all messages differ it does
 not, and no sender is left asleep.
 */
module Senders {
  import opened Numbers
  import M = Monitors
  import opened Channels

  /** A sender that has come out of its wait, or is bound to, has seen its message go. */
  ghost predicate SeenOk(s: State, u: nat)
    requires u < |s.calls| == |s.m.threads|
  {
    s.calls[u].SendTest? ==>
      && (!s.calls[u].again ==> s.m.threads[u].In?)
      && (s.calls[u].again && !Waits(s.m, s.m.threads[u]) ==> s.calls[u].seen < |s.received|)
  }

  /** A receiver about to signal has just taken what the senders saw. */
  ghost predicate TakenOk(s: State, t: nat, u: nat)
    requires t < |s.calls| && u < |s.calls|
  {
    s.calls[t].ReceiveSignal? && s.calls[u].SendTest? ==> s.calls[u].seen < |s.received|
  }

  ghost predicate WokenSenders(s: State)
    requires |s.calls| == |s.m.threads|
  {
    && (forall u :: 0 <= u < |s.calls| ==> SeenOk(s, u))
    && (forall t, u :: 0 <= t < |s.calls| && 0 <= u < |s.calls| ==> TakenOk(s, t, u))
  }

  /** Calls that run from start to end without giving up the lock. */
  predicate Inner(call: Call) {
    call.SendSignal? || call.SendLook? || (call.SendTest? && !call.again) || call.ReceiveSignal?
  }

  /** Only the holder of the lock is in the middle of such a call. */
  lemma OnlyHolder(s: State, t: nat, u: nat)
    requires Inv(s) && (forall v :: 0 <= v < |s.calls| ==> SeenOk(s, v))
    requires t < |s.calls| && u < |s.calls| && u != t && M.Holds(s.m.threads[t])
    ensures !Inner(s.calls[u])
  {
    assert CallOk(s, u) && SeenOk(s, u);
  }

  lemma OutsideKeepsWoken(s: State, t: nat, request: Request)
    requires Inv(s) && WokenSenders(s) && t < |s.calls| && s.m.threads[t] != M.In
    ensures Inv(Step(s, t, request)) && WokenSenders(Step(s, t, request))
  {
    StepKeepsInv(s, t, request);
    StepLeaves(s, t, request);
    var s' := Step(s, t, request);
    assert CallOk(s, t) && M.ThreadOk(s.m, t) && SeenOk(s, t);
    if s.m.threads[t].WaitDown? {
      assert M.TicketOk(s.m, s.m.threads[t].n);
    }
    assert SeenOk(s', t);
    hide M.LockInv, M.WaitInv, M.Step, CallOk, Inv;
    forall u | 0 <= u < |s.calls|
      ensures SeenOk(s', u)
    {
      if u != t {
        assert SeenOk(s, u);
        MonitorKeepsWaits(s.m, t, M.Stay, u);
        MonitorKeepsWaits(s.m, t, M.Enter, u);
      }
    }
    forall v, u | 0 <= v < |s.calls| && 0 <= u < |s.calls|
      ensures TakenOk(s', v, u)
    {
      assert TakenOk(s, v, u);
    }
  }

  /** Steps under the lock, but for the signal to senders, leave waiting senders waiting. */
  lemma InsideKeepsOthersSeen(s: State, t: nat, u: nat)
    requires Inv(s) && WokenSenders(s) && t < |s.calls| && s.m.threads[t] == M.In && u < |s.calls| && u != t
    ensures Inv(Inside(s, t)) && SeenOk(Inside(s, t), u)
  {
    StepKeepsInv(s, t, Receive);
    StepLeaves(s, t, Receive);
    var s' := Inside(s, t);
    assert SeenOk(s, u) && TakenOk(s, t, u);
    hide M.LockInv, M.WaitInv, M.Step, CallOk;
    match s.calls[t]
    case SendSignal(_, _) =>
      if s.m.conds[RECEIVERS] != [] {
        FirstInLine(s, RECEIVERS);
      }
      MonitorKeepsWaits(s.m, t, M.SignalOn(RECEIVERS), u);
    case ReceiveSignal =>
    case SendTest(_, _, _, _, _) => MonitorKeepsWaits(s.m, t, M.WaitOn(SENDERS), u);
    case ReceiveTest(_) => MonitorKeepsWaits(s.m, t, M.WaitOn(RECEIVERS), u);
    case SendDone(_, _, _) => MonitorKeepsWaits(s.m, t, M.Leave, u);
    case Closing => MonitorKeepsWaits(s.m, t, M.Leave, u);
    case _ =>
  }

  lemma InsideKeepsOwnSeen(s: State, t: nat)
    requires Inv(s) && WokenSenders(s) && t < |s.calls| && s.m.threads[t] == M.In
    ensures Inv(Inside(s, t)) && SeenOk(Inside(s, t), t)
  {
    StepKeepsInv(s, t, Receive);
    assert CallOk(s, t) && SeenOk(s, t);
  }

  /** Taking a message takes the one that any sender saw last. */
  lemma InsideKeepsTaken(s: State, t: nat, v: nat, u: nat)
    requires Inv(s) && WokenSenders(s) && t < |s.calls| && s.m.threads[t] == M.In && v < |s.calls| && u < |s.calls|
    ensures Inv(Inside(s, t)) && TakenOk(Inside(s, t), v, u)
  {
    StepKeepsInv(s, t, Receive);
    StepLeaves(s, t, Receive);
    assert TakenOk(s, v, u) && CallOk(s, u) && CallOk(s, t);
    if v != t {
      OnlyHolder(s, t, v);
    }
    hide M.LockInv, M.WaitInv, M.Step;
  }

  lemma StepKeepsWoken(s: State, t: nat, request: Request)
    requires Inv(s) && WokenSenders(s) && t < |s.calls|
    ensures Inv(Step(s, t, request)) && WokenSenders(Step(s, t, request))
  {
    if s.m.threads[t] != M.In {
      OutsideKeepsWoken(s, t, request);
    } else {
      StepKeepsInv(s, t, request);
      StepLeaves(s, t, request);
      hide Inv, SeenOk, TakenOk, Inside;
      forall u | 0 <= u < |s.calls|
        ensures SeenOk(Inside(s, t), u)
      {
        if u == t {
          InsideKeepsOwnSeen(s, t);
        } else {
          InsideKeepsOthersSeen(s, t, u);
        }
      }
      forall v, u | 0 <= v < |s.calls| && 0 <= u < |s.calls|
        ensures TakenOk(Inside(s, t), v, u)
      {
        InsideKeepsTaken(s, t, v, u);
      }
    }
  }

  // ---------- if all messages differ ----------

  /** Calls that do not occur with a synchronized list. */
  predicate ForChannel(call: Call) {
    call.SendLook? || call.SendTest? || call.SendDone? || call.ReceiveSignal?
  }

  /** Nobody waits in `Append`. */
  ghost predicate ListOk(s: State)
    requires |s.m.conds| == 2
  {
    s.kind == SynchList ==> s.m.conds[SENDERS] == [] && forall u :: 0 <= u < |s.calls| ==> !ForChannel(s.calls[u])
  }

  /** There are messages for all the sleeping senders, and one more for a sender that has not waited yet. */
  ghost predicate Balanced(s: State)
    requires |s.m.conds| == 2
  {
    && (forall u :: 0 <= u < |s.calls| && Inner(s.calls[u]) && !s.calls[u].ReceiveSignal? ==>
          |s.m.conds[SENDERS]| < |s.mailbox|)
    && |s.m.conds[SENDERS]| <= |s.mailbox| + 1
    && (|s.m.conds[SENDERS]| == |s.mailbox| + 1 ==> exists u :: 0 <= u < |s.calls| && s.calls[u].ReceiveSignal?)
  }

  ghost predicate SendersInv(s: State) {
    Inv(s) && WokenSenders(s) && ListOk(s) && (Distinct(s.sent) ==> Balanced(s))
  }

  /** Back from a wait, the head is not the message seen; if messages differ, it is not equal either. */
  lemma LeavesLoop(s: State, t: nat)
    requires Inv(s) && t < |s.calls| && s.calls[t].SendTest? && s.calls[t].seen < |s.received| && Distinct(s.sent)
    ensures s.mailbox == [] || s.calls[t].b != s.mailbox[0]
  {
    assert CallOk(s, t);
    assert s.mailbox != [] ==> s.mailbox[0] == s.sent[|s.received|];
  }

  /** What a step under the lock does to the queue of senders and to the mailbox. */
  lemma InsideQueue(s: State, t: nat)
    requires Inv(s) && t < |s.calls| && s.m.threads[t] == M.In
    ensures Inv(Inside(s, t))
    ensures
      var s', call := Inside(s, t), s.calls[t];
      && |s'.calls| == |s.calls|
      && (|s'.mailbox|
        == |s.mailbox| + (if call.SendStart? then 1 else if call.ReceivePop? && s.mailbox != [] then -1 else 0))
      && (|s'.m.conds[SENDERS]| == |s.m.conds[SENDERS]|
            + (if call.SendTest? && s.mailbox != [] && call.b == s.mailbox[0] then 1
               else if call.ReceiveSignal? && s.m.conds[SENDERS] != [] then -1 else 0))
  {
    StepKeepsInv(s, t, Receive);
  }

  lemma InsideKeepsBalance(s: State, t: nat)
    requires SendersInv(s) && t < |s.calls| && s.m.threads[t] == M.In && Distinct(s.sent) && s.kind == Channel
    ensures Inv(Inside(s, t)) && Balanced(Inside(s, t))
  {
    InsideQueue(s, t);
    StepLeaves(s, t, Receive);
    var s' := Inside(s, t);
    assert CallOk(s, t) && SeenOk(s, t);
    forall u | 0 <= u < |s.calls| && u != t
      ensures !Inner(s.calls[u]) && s'.calls[u] == s.calls[u]
    {
      OnlyHolder(s, t, u);
    }
    if s.calls[t].SendTest? && s.calls[t].again {
      LeavesLoop(s, t);
    }
    hide Inv, M.Step, CallOk, SeenOk;
    assert s.calls[t].ReceivePop? ==> s'.calls[t].ReceiveSignal?;
  }

  lemma InsideKeepsList(s: State, t: nat)
    requires SendersInv(s) && t < |s.calls| && s.m.threads[t] == M.In && s.kind == SynchList
    ensures Inv(Inside(s, t)) && ListOk(Inside(s, t))
    ensures Balanced(s) ==> Balanced(Inside(s, t))
  {
    InsideQueue(s, t);
    StepLeaves(s, t, Receive);
    var s' := Inside(s, t);
    assert CallOk(s, t);
    forall u | 0 <= u < |s.calls| && u != t
      ensures !Inner(s.calls[u]) && s'.calls[u] == s.calls[u]
    {
      OnlyHolder(s, t, u);
    }
    hide Inv, M.Step, CallOk;
  }

  lemma StepKeepsSenders(s: State, t: nat, request: Request)
    requires SendersInv(s) && t < |s.calls|
    ensures SendersInv(Step(s, t, request))
  {
    StepKeepsWoken(s, t, request);
    StepLeaves(s, t, request);
    var s' := Step(s, t, request);
    assert Distinct(s'.sent) ==> Distinct(s.sent);
    if s.m.threads[t] == M.In {
      hide Inv, WokenSenders, Balanced, M.Step;
      if s.kind == SynchList {
        InsideKeepsList(s, t);
      } else if Distinct(s.sent) {
        InsideKeepsBalance(s, t);
      }
    } else {
      OutsideKeepsQueue(s, t, request);
    }
  }

  lemma OutsideKeepsQueue(s: State, t: nat, request: Request)
    requires SendersInv(s) && t < |s.calls| && s.m.threads[t] != M.In
    ensures
      var s' := Step(s, t, request);
      && |s'.m.conds| == 2 && ListOk(s') && (Balanced(s) ==> Balanced(s')) && s'.sent == s.sent
  {
    assert CallOk(s, t);
    var s' := Step(s, t, request);
    assert s'.m.conds == s.m.conds && s'.mailbox == s.mailbox;
    forall u | 0 <= u < |s.calls|
      ensures s'.calls[u] == s.calls[u] || (!Inner(s'.calls[u]) && !Inner(s.calls[u]) && !ForChannel(s'.calls[u]))
    {
    }
  }

  lemma {:induction false} RunKeepsSenders(kind: Kind, threads: nat, schedule: seq<Event>)
    ensures SendersInv(Run(Fresh(kind, threads), schedule))
  {
    if schedule != [] {
      var e, front := schedule[|schedule| - 1], schedule[..|schedule| - 1];
      RunKeepsSenders(kind, threads, front);
      var before := Run(Fresh(kind, threads), front);
      if e.t < |before.calls| {
        StepKeepsSenders(before, e.t, e.request);
      }
    }
  }

  /** Whoever is back from a wait in `Send` finds the message it had seen at the head taken. */
  lemma WokenSenderWasServed(kind: Kind, threads: nat, schedule: seq<Event>, t: nat)
    requires t < |Run(Fresh(kind, threads), schedule).calls|
    ensures
      var s := Run(Fresh(kind, threads), schedule);
      s.calls[t].SendTest? && s.calls[t].again && s.m.threads[t] == M.In ==> s.calls[t].seen < |s.received|
  {
    RunKeepsSenders(kind, threads, schedule);
    assert SeenOk(Run(Fresh(kind, threads), schedule), t);
  }

  /**
   Such a sender goes back to sleep, although it was served, exactly if the next
   message is equal to the one it saw; otherwise it leaves the loop.
   */
  lemma WaitsAgainForEqual(kind: Kind, threads: nat, schedule: seq<Event>, t: nat)
    requires t < |Run(Fresh(kind, threads), schedule).calls|
    ensures
      var s := Run(Fresh(kind, threads), schedule);
      s.calls[t].SendTest? && s.calls[t].again && s.m.threads[t] == M.In ==>
        && s.calls[t].seen < |s.received| <= |s.sent|
        && var equal := |s.received| < |s.sent| && s.sent[|s.received|] == s.sent[s.calls[t].seen];
           && (Step(s, t, Receive).m.threads[t].WaitRelease? <==> equal)
           && (Step(s, t, Receive).calls[t].SendDone? <==> !equal)
  {
    hide M.LockInv, M.WaitInv, Run;
    RunKeepsSenders(kind, threads, schedule);
    var s := Run(Fresh(kind, threads), schedule);
    assert SeenOk(s, t) && CallOk(s, t);
    assert |s.received| < |s.sent| ==> s.sent[|s.received|] == s.mailbox[0];
  }

  /** If all messages differ, a sleeping sender has a message in the mailbox, unless a receiver is about to signal. */
  lemma NoSenderStranded(kind: Kind, threads: nat, schedule: seq<Event>)
    ensures
      var s := Run(Fresh(kind, threads), schedule);
      Distinct(s.sent) && (forall u :: 0 <= u < |s.calls| ==> !s.calls[u].ReceiveSignal?) ==>
        |s.m.conds[SENDERS]| <= |s.mailbox|
  {
    RunKeepsSenders(kind, threads, schedule);
  }
}
