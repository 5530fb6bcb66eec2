/**
 When a sender is left asleep.  If a message comes twice, its first sender can be woken, find
 the equal message at the head and wait again, behind all others, one wake-up short.
 */
module StrandedSender {
  import opened Numbers
  import opened Options
  import opened Semaphores
  import M = Monitors
  import C = Channels
  import opened Senders

  const FREE := Sem(1, [], {})
  const TAKEN := Sem(0, [], {})

  /** Some schedule leads from one state to the other. */
  ghost predicate Leads(s: C.State, s': C.State) {
    C.Good(s) && exists schedule :: C.Run(s, schedule) == s'
  }

  /** One more turn of thread `t`. */
  lemma LeadsToNext(a: C.State, b: C.State, t: Tid, request: C.Request)
    requires Leads(a, b) && t < |b.calls|
    ensures C.Good(b) && C.Shape(b) && Leads(a, C.Step(b, t, request))
  {
    var x :| C.Run(a, x) == b;
    var schedule := x + [C.Event(t, request)];
    assert schedule[..|schedule| - 1] == x;
    assert C.Run(a, schedule) == C.Step(b, t, request);
  }

  // ---------- single steps ----------

  /** A state of a channel in which thread `t` can be given a turn. */
  ghost predicate Plain(s: C.State, t: Tid) {
    C.Shape(s) && t < |s.calls| == |s.m.threads| && |s.m.conds| == 2 && s.kind == C.Channel
  }

  /** Wherever a schedule leads from `a`, thread `t` can have the next turn. */
  lemma Turn(a: C.State, s: C.State, t: Tid)
    requires Leads(a, s) && t < |a.calls| && a.kind == C.Channel
    ensures Plain(s, t) && Leads(a, C.Step(s, t, C.Receive))
  {
    LeadsToNext(a, s, t, C.Receive);
    assert |s.calls| == |a.calls| && s.kind == a.kind;
  }

  lemma PostStep(s: C.State, t: Tid)
    requires Plain(s, t) && s.m.threads[t] == M.In && s.calls[t].SendStart?
    ensures C.Step(s, t, C.Receive) ==
      C.Calls(s, t, C.SendSignal(|s.sent|, s.mailbox == [])).(mailbox := s.mailbox + [s.calls[t].msg],
        sent := s.sent + [s.calls[t].msg])
  {
  }

  lemma IdleSignalStep(s: C.State, t: Tid)
    requires Plain(s, t) && s.m.threads[t] == M.In && s.calls[t].SendSignal? && s.m.conds[C.RECEIVERS] == []
    ensures C.Step(s, t, C.Receive) ==
      C.Calls(s, t, C.SendLook(s.calls[t].k, s.calls[t].first))
  {
  }

  lemma LookStep(s: C.State, t: Tid)
    requires Plain(s, t) && s.m.threads[t] == M.In && s.calls[t].SendLook? && s.mailbox != []
    ensures C.Step(s, t, C.Receive) ==
      C.Calls(s, t, C.SendTest(s.calls[t].k, s.calls[t].first, s.mailbox[0], |s.received|, false))
  {
  }

  lemma WaitStep(s: C.State, t: Tid)
    requires Plain(s, t) && s.m.threads[t] == M.In && s.calls[t].SendTest? && s.mailbox != []
      && s.mailbox[0] == s.calls[t].b
    ensures C.Step(s, t, C.Receive) ==
      C.Calls(s, t, s.calls[t].(again := true)).(m := M.Queue(s.m, t, C.SENDERS))
  {
  }

  lemma DisownStep(s: C.State, t: Tid)
    requires Plain(s, t) && s.m.threads[t].WaitRelease?
    ensures C.Step(s, t, C.Receive) ==
      s.(m := M.Goes(s.m, t, M.WaitUp(s.m.threads[t].n)).(owner := None))
  {
  }

  lemma GiveBackStep(s: C.State, t: Tid)
    requires Plain(s, t) && s.m.threads[t].WaitUp?
    ensures C.Step(s, t, C.Receive) ==
      s.(m := M.Goes(s.m, t, M.WaitDown(s.m.threads[t].n)).(lock := Up(s.m.lock)))
  {
  }

  lemma TestStep(s: C.State, t: Tid)
    requires Plain(s, t) && s.m.threads[t] == M.In && s.calls[t] == C.ReceiveTest(false) && s.mailbox != []
    ensures C.Step(s, t, C.Receive) ==
      C.Calls(s, t, C.ReceivePop(false))
  {
  }

  lemma PopStep(s: C.State, t: Tid)
    requires Plain(s, t) && s.m.threads[t] == M.In && s.calls[t].ReceivePop? && s.mailbox != []
    ensures C.Step(s, t, C.Receive) ==
      C.Calls(s, t, C.ReceiveSignal).(mailbox := s.mailbox[1..], received := s.received + [s.mailbox[0]])
  {
  }

  lemma SignalStep(s: C.State, t: Tid)
    requires Plain(s, t) && s.m.threads[t] == M.In && s.calls[t].ReceiveSignal? && s.m.conds[C.SENDERS] != []
    ensures C.Step(s, t, C.Receive) ==
      C.Calls(s, t, C.Closing).(m := M.Pop(s.m, t, C.SENDERS))
  {
  }

  lemma RaiseStep(s: C.State, t: Tid)
    requires Plain(s, t) && s.m.threads[t].Signalling? && s.m.threads[t].n < |s.m.tickets|
    ensures C.Step(s, t, C.Receive) ==
      s.(m := M.Raise(s.m, t, s.m.threads[t].n))
  {
  }

  lemma LeaveStep(s: C.State, t: Tid)
    requires Plain(s, t) && s.m.threads[t] == M.In && s.calls[t].Closing?
    ensures C.Step(s, t, C.Receive) ==
      C.Calls(s, t, C.Idle).(m := M.Goes(s.m, t, M.Releasing).(owner := None))
  {
  }

  lemma OutStep(s: C.State, t: Tid)
    requires Plain(s, t) && s.m.threads[t] == M.Releasing
    ensures C.Step(s, t, C.Receive) ==
      s.(m := M.Goes(s.m, t, M.Out).(lock := Up(s.m.lock)))
  {
  }

  lemma PassStep(s: C.State, t: Tid)
    requires Plain(s, t) && s.m.threads[t].WaitDown? && s.m.threads[t].n < |s.m.tickets|
    ensures C.Step(s, t, C.Receive) ==
      s.(m := M.Sleep(s.m, t, s.m.threads[t].n))
  {
  }

  lemma LockStep(s: C.State, t: Tid)
    requires Plain(s, t) && s.m.threads[t] == M.Acquiring && s.m.lock == FREE
    ensures C.Step(s, t, C.Receive) ==
      s.(m := M.Goes(s.m, t, M.Acquired).(lock := TAKEN))
  {
  }

  lemma OwnStep(s: C.State, t: Tid)
    requires Plain(s, t) && s.m.threads[t] == M.Acquired
    ensures C.Step(s, t, C.Receive) ==
      s.(m := M.Goes(s.m, t, M.In).(owner := Some(t)))
  {
  }

  lemma EnterStep(s: C.State, t: Tid, request: C.Request)
    requires Plain(s, t) && s.m.threads[t] == M.Out && s.calls[t] == C.Idle
    ensures C.Step(s, t, request) == C.Calls(s, t, C.Started(request)).(m := M.Goes(s.m, t, M.Acquiring))
  {
  }

  // ---------- taking the lock ----------

  function Locked(s: C.State, t: Tid): C.State
    requires t < |s.m.threads|
  {
    s.(m := s.m.(lock := TAKEN, owner := Some(t), threads := s.m.threads[t := M.In]))
  }

  lemma Locks(a: C.State, s: C.State, t: Tid)
    requires Leads(a, s) && t < |a.calls| && a.kind == C.Channel && Plain(s, t)
    requires s.m.threads[t] == M.Acquiring && s.m.lock == FREE
    ensures Leads(a, Locked(s, t))
  {
    hide C.Good, C.Run, C.Step, C.Shape;
    Turn(a, s, t);
    LockStep(s, t);
    var s1 := C.Step(s, t, C.Receive);
    Turn(a, s1, t);
    OwnStep(s1, t);
    assert s1.m.threads[t := M.In] == s.m.threads[t := M.In];
  }

  lemma Enters(a: C.State, s: C.State, t: Tid, request: C.Request)
    requires Leads(a, s) && t < |a.calls| && a.kind == C.Channel && Plain(s, t)
    requires s.m.threads[t] == M.Out && s.calls[t] == C.Idle && s.m.lock == FREE
    ensures Leads(a, Locked(C.Calls(s, t, C.Started(request)), t))
  {
    LeadsToNext(a, s, t, request);
    EnterStep(s, t, request);
    var s1 := C.Step(s, t, request);
    hide C.Good, C.Run, C.Step, C.Shape;
    Turn(a, s1, t);
    Locks(a, s1, t);
    assert s1.m.threads[t := M.In] == s.m.threads[t := M.In];
  }

  // ---------- sending ----------

  /** The message is in the mailbox and the head has been looked at. */
  function Posted(s: C.State, t: Tid, msg: int): C.State
    requires t < |s.calls|
  {
    var mailbox := s.mailbox + [msg];
    s.(mailbox := mailbox, sent := s.sent + [msg],
       calls := s.calls[t := C.SendTest(|s.sent|, s.mailbox == [], mailbox[0], |s.received|, false)])
  }

  lemma Posts(a: C.State, s: C.State, t: Tid, msg: int)
    requires Leads(a, s) && t < |a.calls| && a.kind == C.Channel && Plain(s, t)
    requires s.m.threads[t] == M.In && s.calls[t] == C.SendStart(msg) && s.m.conds[C.RECEIVERS] == []
    ensures Leads(a, Posted(s, t, msg))
  {
    hide C.Good, C.Run, C.Step, C.Shape;
    Turn(a, s, t);
    PostStep(s, t);
    var s1 := C.Step(s, t, C.Receive);
    Turn(a, s1, t);
    IdleSignalStep(s1, t);
    var s2 := C.Step(s1, t, C.Receive);
    Turn(a, s2, t);
    LookStep(s2, t);
    var s3 := C.Step(s2, t, C.Receive);
    assert s3.calls == Posted(s, t, msg).calls;
  }

  /** A sender has queued a ticket and given the lock back. */
  function Parked(s: C.State, t: Tid): C.State
    requires t < |s.calls| == |s.m.threads| && |s.m.conds| == 2 && s.calls[t].SendTest?
  {
    var n := |s.m.tickets|;
    s.(calls := s.calls[t := s.calls[t].(again := true)],
       m := s.m.(lock := FREE, owner := None, threads := s.m.threads[t := M.WaitDown(n)],
                 conds := s.m.conds[C.SENDERS := s.m.conds[C.SENDERS] + [n]],
                 tickets := s.m.tickets + [M.Ticket(t, C.SENDERS, TAKEN, 0, 0, 0)]))
  }

  /** A sender that sees its value at the head waits. */
  lemma Parks(a: C.State, s: C.State, t: Tid)
    requires Leads(a, s) && t < |a.calls| && a.kind == C.Channel && Plain(s, t)
    requires s.m.threads[t] == M.In && s.m.lock == TAKEN && s.calls[t].SendTest?
    requires s.mailbox != [] && s.mailbox[0] == s.calls[t].b
    ensures Leads(a, Parked(s, t))
  {
    hide C.Good, C.Run, C.Step, C.Shape;
    Turn(a, s, t);
    WaitStep(s, t);
    var s1 := C.Step(s, t, C.Receive);
    Turn(a, s1, t);
    DisownStep(s1, t);
    var s2 := C.Step(s1, t, C.Receive);
    Turn(a, s2, t);
    GiveBackStep(s2, t);
    var s3 := C.Step(s2, t, C.Receive);
    assert s3.m.threads == Parked(s, t).m.threads;
    assert s3 == Parked(s, t);
  }

  // ---------- receiving ----------

  function Taken(s: C.State, t: Tid): C.State
    requires t < |s.calls| && s.mailbox != []
  {
    s.(mailbox := s.mailbox[1..], received := s.received + [s.mailbox[0]], calls := s.calls[t := C.ReceiveSignal])
  }

  lemma Takes(a: C.State, s: C.State, t: Tid)
    requires Leads(a, s) && t < |a.calls| && a.kind == C.Channel && Plain(s, t)
    requires s.m.threads[t] == M.In && s.calls[t] == C.ReceiveTest(false) && s.mailbox != []
    ensures Leads(a, Taken(s, t))
  {
    hide C.Good, C.Run, C.Step, C.Shape;
    Turn(a, s, t);
    TestStep(s, t);
    var s1 := C.Step(s, t, C.Receive);
    Turn(a, s1, t);
    PopStep(s1, t);
    assert s1.calls[t := C.ReceiveSignal] == s.calls[t := C.ReceiveSignal];
  }

  /** The first waiting sender's ticket is raised, and the receiver is gone. */
  function Signalled(s: C.State, t: Tid): C.State
    requires t < |s.calls| == |s.m.threads| && |s.m.conds| == 2
    requires s.m.conds[C.SENDERS] != [] && s.m.conds[C.SENDERS][0] < |s.m.tickets|
  {
    var n := s.m.conds[C.SENDERS][0];
    var k := s.m.tickets[n];
    s.(calls := s.calls[t := C.Idle],
       m := s.m.(lock := FREE, owner := None, threads := s.m.threads[t := M.Out],
                 conds := s.m.conds[C.SENDERS := s.m.conds[C.SENDERS][1..]],
                 tickets := s.m.tickets[n := k.(pops := k.pops + 1, ups := k.ups + 1, sem := FREE)]))
  }

  lemma Signals(a: C.State, s: C.State, t: Tid)
    requires Leads(a, s) && t < |a.calls| && a.kind == C.Channel && Plain(s, t)
    requires s.m.threads[t] == M.In && s.calls[t] == C.ReceiveSignal && s.m.lock == TAKEN
    requires
      var q := s.m.conds[C.SENDERS];
      q != [] && q[0] < |s.m.tickets| && s.m.tickets[q[0]].sem == TAKEN
    ensures Leads(a, Signalled(s, t))
  {
    hide C.Good, C.Run, C.Step, C.Shape;
    var n := s.m.conds[C.SENDERS][0];
    Turn(a, s, t);
    SignalStep(s, t);
    var s1 := C.Step(s, t, C.Receive);
    Turn(a, s1, t);
    RaiseStep(s1, t);
    var s2 := C.Step(s1, t, C.Receive);
    Turn(a, s2, t);
    LeaveStep(s2, t);
    var s3 := C.Step(s2, t, C.Receive);
    Turn(a, s3, t);
    OutStep(s3, t);
    var s4, f := C.Step(s3, t, C.Receive), Signalled(s, t);
    assert s4.m.threads == f.m.threads && s4.calls == f.calls && s4.m.tickets == f.m.tickets;
    assert s4 == f;
  }

  // ---------- back from the wait ----------

  function Back(s: C.State, t: Tid, n: nat): C.State
    requires t < |s.m.threads| && n < |s.m.tickets|
  {
    Locked(s.(m := s.m.(tickets := s.m.tickets[n := s.m.tickets[n].(sem := TAKEN,
      downs := s.m.tickets[n].downs + 1)])), t)
  }

  lemma ComesBack(a: C.State, s: C.State, t: Tid, n: nat)
    requires Leads(a, s) && t < |a.calls| && a.kind == C.Channel && Plain(s, t)
    requires n < |s.m.tickets| && s.m.threads[t] == M.WaitDown(n) && s.m.lock == FREE && s.m.tickets[n].sem == FREE
    ensures Leads(a, Back(s, t, n))
  {
    hide C.Good, C.Run, C.Step, C.Shape;
    Turn(a, s, t);
    PassStep(s, t);
    var s1 := C.Step(s, t, C.Receive);
    Turn(a, s1, t);
    Locks(a, s1, t);
    assert Down(FREE, t) == TAKEN;
    assert Locked(s1, t).m.threads == Back(s, t, n).m.threads;
    assert Locked(s1, t) == Back(s, t, n);
  }

  // ---------- the schedule ----------

  /** A `Send` of an idle thread, up to its wait for the message it sees at the head. */
  lemma SendsAndParks(a: C.State, s: C.State, t: Tid, msg: int) returns (p: C.State)
    requires Leads(a, s) && t < |a.calls| && a.kind == C.Channel && Plain(s, t)
    requires s.m.threads[t] == M.Out && s.calls[t] == C.Idle && s.m.lock == FREE && s.m.conds[C.RECEIVERS] == []
    ensures Leads(a, p) && Plain(p, t)
    ensures p.mailbox == s.mailbox + [msg] && p.sent == s.sent + [msg] && p.received == s.received
    ensures p.calls == s.calls[t := C.SendTest(|s.sent|, s.mailbox == [], (s.mailbox + [msg])[0], |s.received|, true)]
    ensures p.m.lock == FREE && p.m.threads == s.m.threads[t := M.WaitDown(|s.m.tickets|)]
    ensures p.m.conds == s.m.conds[C.SENDERS := s.m.conds[C.SENDERS] + [|s.m.tickets|]]
    ensures p.m.tickets == s.m.tickets + [M.Ticket(t, C.SENDERS, TAKEN, 0, 0, 0)]
  {
    hide C.Good, C.Run, C.Shape;
    Enters(a, s, t, C.Send(msg));
    var e := Locked(C.Calls(s, t, C.SendStart(msg)), t);
    Turn(a, e, t);
    Posts(a, e, t, msg);
    var q := Posted(e, t, msg);
    Turn(a, q, t);
    Parks(a, q, t);
    p := Parked(q, t);
    Turn(a, p, t);
  }

  /** A `Receive` of an idle thread. */
  lemma ReceivesOne(a: C.State, s: C.State, t: Tid) returns (p: C.State)
    requires Leads(a, s) && t < |a.calls| && a.kind == C.Channel && Plain(s, t)
    requires s.m.threads[t] == M.Out && s.calls[t] == C.Idle && s.m.lock == FREE && s.mailbox != []
    requires
      var q := s.m.conds[C.SENDERS];
      q != [] && q[0] < |s.m.tickets| && s.m.tickets[q[0]].sem == TAKEN
    ensures Leads(a, p) && Plain(p, t)
    ensures p.mailbox == s.mailbox[1..] && p.sent == s.sent && p.received == s.received + [s.mailbox[0]]
      && p.calls == s.calls
    ensures p.m.lock == FREE && p.m.threads == s.m.threads
    ensures p.m.conds == s.m.conds[C.SENDERS := s.m.conds[C.SENDERS][1..]]
    ensures
      var n := s.m.conds[C.SENDERS][0];
      p.m.tickets
        == s.m.tickets[n := s.m.tickets[n].(pops := s.m.tickets[n].pops + 1, ups := s.m.tickets[n].ups + 1,
        sem := FREE)]
  {
    hide C.Good, C.Run, C.Shape;
    Enters(a, s, t, C.Receive);
    var e := Locked(C.Calls(s, t, C.ReceiveTest(false)), t);
    Turn(a, e, t);
    Takes(a, e, t);
    var q := Taken(e, t);
    Turn(a, q, t);
    Signals(a, q, t);
    p := Signalled(q, t);
    Turn(a, p, t);
  }

  /** A woken sender that sees its value at the head again. */
  lemma WaitsAgain(a: C.State, s: C.State, t: Tid, n: nat) returns (p: C.State)
    requires Leads(a, s) && t < |a.calls| && a.kind == C.Channel && Plain(s, t)
    requires n < |s.m.tickets| && s.m.threads[t] == M.WaitDown(n) && s.m.lock == FREE && s.m.tickets[n].sem == FREE
    requires s.calls[t].SendTest? && s.mailbox != [] && s.mailbox[0] == s.calls[t].b
    ensures Leads(a, p) && Plain(p, t)
    ensures p.mailbox == s.mailbox && p.sent == s.sent && p.received == s.received
    ensures p.calls == s.calls[t := s.calls[t].(again := true)]
    ensures p.m.lock == FREE && p.m.threads == s.m.threads[t := M.WaitDown(|s.m.tickets|)]
    ensures p.m.conds == s.m.conds[C.SENDERS := s.m.conds[C.SENDERS] + [|s.m.tickets|]]
    ensures p.m.tickets == s.m.tickets[n := s.m.tickets[n].(sem := TAKEN, downs := s.m.tickets[n].downs + 1)]
                             + [M.Ticket(t, C.SENDERS, TAKEN, 0, 0, 0)]
  {
    hide C.Good, C.Run, C.Shape;
    ComesBack(a, s, t, n);
    var e := Back(s, t, n);
    Turn(a, e, t);
    Parks(a, e, t);
    p := Parked(e, t);
    Turn(a, p, t);
  }

  /**
   Senders 0 to `k` have sent their messages, `d` of which have been received; the lock is
   free, and the tickets of `queue` wait for a signal.
   */
  ghost predicate Stage(s: C.State, ms: seq<int>, k: nat, d: nat, queue: seq<nat>) {
    && s.kind == C.Channel && s.m.lock == FREE && |ms| < |s.calls| == |s.m.threads| && d <= k <= |ms|
    && s.sent == ms[..k] && s.received == ms[..d] && s.mailbox == ms[d..k]
    && |s.m.conds| == 2 && s.m.conds[C.RECEIVERS] == [] && s.m.conds[C.SENDERS] == queue
    && (forall x :: 0 <= x < |queue| ==> queue[x] < |s.m.tickets| && s.m.tickets[queue[x]].sem == TAKEN)
    && (forall t :: 0 <= t < k ==> s.calls[t].SendTest?)
    && (forall t :: k <= t < |s.calls| ==> s.m.threads[t] == M.Out && s.calls[t] == C.Idle)
  }

  lemma SendNext(a: C.State, s: C.State, ms: seq<int>, k: nat, d: nat, queue: seq<nat>) returns (p: C.State)
    requires Leads(a, s) && |ms| < |a.calls| && a.kind == C.Channel && Stage(s, ms, k, d, queue) && k < |ms|
    ensures Leads(a, p) && Stage(p, ms, k + 1, d, queue + [|s.m.tickets|]) && |p.m.tickets| == |s.m.tickets| + 1
    ensures p.m.threads == s.m.threads[k := M.WaitDown(|s.m.tickets|)]
    ensures p.calls[k].SendTest? && p.calls[k].b == ms[d] && forall t :: 0 <= t < k ==> p.calls[t] == s.calls[t]
  {
    hide Leads, C.Shape;
    Turn(a, s, k);
    p := SendsAndParks(a, s, k, ms[k]);
    assert ms[..k + 1] == ms[..k] + [ms[k]] && ms[d..k + 1] == ms[d..k] + [ms[k]];
    assert p.mailbox[0] == ms[d];
  }

  /** The thread behind the senders receives. */
  lemma ReceiveNext(a: C.State, s: C.State, ms: seq<int>, k: nat, d: nat, queue: seq<nat>) returns (p: C.State)
    requires Leads(a, s) && |ms| < |a.calls| && a.kind == C.Channel && Stage(s, ms, k, d, queue)
    requires d < k && queue != [] && queue[0] !in queue[1..]
    ensures Leads(a, p) && Stage(p, ms, k, d + 1, queue[1..]) && p.m.threads == s.m.threads && p.calls == s.calls
    ensures |p.m.tickets| == |s.m.tickets| && queue[0] < |p.m.tickets| && p.m.tickets[queue[0]].sem == FREE
    ensures forall n :: 0 <= n < |s.m.tickets| && n != queue[0] ==> p.m.tickets[n] == s.m.tickets[n]
  {
    hide Leads, C.Shape;
    Turn(a, s, |ms|);
    p := ReceivesOne(a, s, |ms|);
    assert ms[..d + 1] == ms[..d] + [ms[d]];
    forall x | 0 <= x < |queue[1..]|
      ensures queue[1..][x] != queue[0]
    {
      assert queue[1..][x] in queue[1..];
    }
  }

  /** The first `i` messages are sent and received one by one. */
  lemma {:induction false} DeliverFirst(a: C.State, ms: seq<int>, i: nat) returns (p: C.State)
    requires Leads(a, a) && |ms| < |a.calls| && a.kind == C.Channel && Stage(a, ms, 0, 0, []) && a.m.tickets == []
      && i <= |ms|
    ensures Leads(a, p) && Stage(p, ms, i, i, []) && |p.m.tickets| == i
  {
    hide Leads, Stage;
    if i == 0 {
      p := a;
    } else {
      p := DeliverFirst(a, ms, i - 1);
      p := SendNext(a, p, ms, i - 1, i - 1, []);
      assert ([] + [i - 1])[1..] == [];
      p := ReceiveNext(a, p, ms, i, i - 1, [] + [i - 1]);
    }
  }

  function Range(i: nat, k: nat): (r: seq<nat>)
    requires i <= k
    ensures |r| == k - i && forall x :: 0 <= x < |r| ==> r[x] == i + x
  {
    seq(k - i, x => i + x)
  }

  /** Messages `i` to `k` are sent; their senders all see message `i` at the head. */
  lemma {:induction false} SendRest(a: C.State, s: C.State, ms: seq<int>, i: nat, k: nat) returns (p: C.State)
    requires Leads(a, s) && |ms| < |a.calls| && a.kind == C.Channel && Stage(s, ms, i, i, []) && |s.m.tickets| == i
    requires i < k <= |ms|
    ensures Leads(a, p) && Stage(p, ms, k, i, Range(i, k)) && |p.m.tickets| == k
    ensures i < |p.calls| == |p.m.threads|
    ensures p.m.threads[i] == M.WaitDown(i) && p.calls[i].SendTest? && p.calls[i].b == ms[i]
    decreases k
  {
    hide Leads;
    if k == i + 1 {
      p := SendNext(a, s, ms, i, i, []);
      assert [] + [i] == Range(i, k);
    } else {
      var q := SendRest(a, s, ms, i, k - 1);
      p := SendNext(a, q, ms, k - 1, i, Range(i, k - 1));
      assert Range(i, k - 1) + [k - 1] == Range(i, k);
    }
  }

  /** Messages `d` to `e` are received; the tickets that head the queue are raised. */
  lemma {:induction false} ReceiveMany(a: C.State, s: C.State, ms: seq<int>, d: nat, e: nat, queue: seq<nat>)
    returns (p: C.State)
    requires Leads(a, s) && |ms| < |a.calls| && a.kind == C.Channel && Stage(s, ms, |ms|, d, queue) && Distinct(queue)
    requires d <= e <= |ms| && e - d <= |queue|
    ensures Leads(a, p) && Stage(p, ms, |ms|, e, queue[e - d..]) && p.m.threads == s.m.threads && p.calls == s.calls
    ensures |p.m.tickets| == |s.m.tickets|
    ensures d < e ==> queue[0] < |p.m.tickets| && p.m.tickets[queue[0]].sem == FREE
    decreases e
  {
    hide Leads, Stage;
    if d == e {
      p := s;
      assert queue[0..] == queue;
    } else {
      var q := ReceiveMany(a, s, ms, d, e - 1, queue);
      var rest := queue[e - 1 - d..];
      assert rest[1..] == queue[e - d..] && rest[0] == queue[e - 1 - d];
      p := ReceiveNext(a, q, ms, |ms|, e - 1, rest);
    }
  }

  /** A sender that was raised sees its value at the head again, and queues up last. */
  lemma QueuesAgain(a: C.State, s: C.State, ms: seq<int>, d: nat, queue: seq<nat>, i: Tid) returns (p: C.State)
    requires Leads(a, s) && |ms| < |a.calls| && a.kind == C.Channel && Stage(s, ms, |ms|, d, queue)
    requires i < |ms| && i < |s.m.tickets| && s.m.threads[i] == M.WaitDown(i) && s.m.tickets[i].sem == FREE
    requires d < |ms| && s.calls[i].SendTest? && s.calls[i].b == ms[d]
    ensures Leads(a, p) && Stage(p, ms, |ms|, d, queue + [|s.m.tickets|])
  {
    hide Leads, C.Shape;
    Turn(a, s, i);
    p := WaitsAgain(a, s, i, i);
  }

  /** Everything sent has been received, nobody is inside or about to signal, and a sender is queued. */
  ghost predicate Stranded(s: C.State) {
    && |s.m.conds| == 2 && s.received == s.sent && s.mailbox == [] && s.m.conds[C.SENDERS] != []
    && s.m.lock == FREE && (forall u :: 0 <= u < |s.calls| ==> !s.calls[u].ReceiveSignal?)
  }

  /** The schedule sends exactly `ms`, in this order, and leaves a sender asleep. */
  ghost predicate EndsStranded(ms: seq<int>, threads: nat, schedule: seq<C.Event>) {
    var s := C.Run(C.Fresh(C.Channel, threads), schedule);
    s.sent == ms && Stranded(s)
  }

  lemma StageIsStranded(s: C.State, ms: seq<int>, queue: seq<nat>)
    requires Stage(s, ms, |ms|, |ms|, queue) && queue != []
    ensures s.sent == ms && Stranded(s)
  {
    assert ms[..|ms|] == ms;
  }

  /** If a message comes twice, some schedule leaves a sender asleep. */
  lemma EqualMessagesStrand(ms: seq<int>, i: nat, j: nat, threads: nat)
    requires i < j < |ms| < threads && ms[i] == ms[j]
    ensures exists schedule :: EndsStranded(ms, threads, schedule)
  {
    hide C.Good, C.Shape, Stage, Leads, Stranded, C.Fresh, EndsStranded;
    var a, n := C.Fresh(C.Channel, threads), |ms|;
    Begins(ms, threads);
    var s := DeliverFirst(a, ms, i);
    s := SendRest(a, s, ms, i, n);
    s := ReceiveMany(a, s, ms, i, j, Range(i, n));
    assert Range(i, n)[j - i..] == Range(j, n);
    s := QueuesAgain(a, s, ms, j, Range(j, n), i);
    var queue := Range(j, n) + [n];
    s := ReceiveMany(a, s, ms, j, n, queue);
    assert queue[n - j..] == [n];
    StageIsStranded(s, ms, [n]);
    SomeSchedule(a, s, ms, threads);
  }

  lemma Begins(ms: seq<int>, threads: nat)
    requires |ms| < threads
    ensures
      var a := C.Fresh(C.Channel, threads);
      && Leads(a, a) && |a.calls| == threads && a.kind == C.Channel
      && Stage(a, ms, 0, 0, []) && a.m.tickets == []
  {
    var a := C.Fresh(C.Channel, threads);
    assert C.Run(a, []) == a;
  }

  lemma SomeSchedule(a: C.State, s: C.State, ms: seq<int>, threads: nat)
    requires a == C.Fresh(C.Channel, threads) && Leads(a, s) && s.sent == ms && Stranded(s)
    ensures exists schedule :: EndsStranded(ms, threads, schedule)
  {
    var schedule :| C.Run(a, schedule) == s;
    assert EndsStranded(ms, threads, schedule);
  }

  /** Sending `ms` never leaves a sender asleep, under any schedule, if and only if the messages all differ. */
  lemma StrandedExactly(ms: seq<int>, threads: nat)
    requires |ms| < threads
    ensures Distinct(ms) <==> forall schedule :: !EndsStranded(ms, threads, schedule)
  {
    if Distinct(ms) {
      forall schedule
        ensures !EndsStranded(ms, threads, schedule)
      {
        DistinctNeverStrand(ms, threads, schedule);
      }
    } else {
      var i, j :| 0 <= i < j < |ms| && ms[i] == ms[j];
      EqualMessagesStrand(ms, i, j, threads);
    }
  }

  lemma DistinctNeverStrand(ms: seq<int>, threads: nat, schedule: seq<C.Event>)
    requires Distinct(ms)
    ensures !EndsStranded(ms, threads, schedule)
  {
    hide C.Run, C.Good, Distinct;
    NoSenderStranded(C.Channel, threads, schedule);
  }

  // ---------- no way out ----------

  /** Nothing to receive, nobody about to signal, and the tickets of `queue` still head the queue of senders. */
  ghost predicate Asleep(s: C.State, sent: seq<int>, queue: seq<nat>) {
    && s.sent == sent && s.mailbox == [] && |s.m.conds| == 2 && queue <= s.m.conds[C.SENDERS]
    && forall u :: 0 <= u < |s.calls| ==> !s.calls[u].ReceiveSignal?
  }

  lemma StepSends(s: C.State, t: Tid, request: C.Request)
    requires C.Good(s) && t < |s.calls|
    ensures s.sent <= C.Step(s, t, request).sent
  {
    hide C.Good, M.Step;
  }

  /** A turn of any thread leaves the queued senders where they are, unless it sends a message. */
  lemma StepStaysAsleep(s: C.State, t: Tid, request: C.Request, queue: seq<nat>)
    requires C.Good(s) && Asleep(s, s.sent, queue) && t < |s.calls| && C.Step(s, t, request).sent == s.sent
    ensures Asleep(C.Step(s, t, request), s.sent, queue)
  {
    hide C.NoneStranded, M.LockInv, M.TicketOk, Down, Up;
    assert C.CallOk(s, t);
  }

  /** Those who sleep in `Send` behind an empty mailbox sleep until somebody sends again. */
  lemma {:induction false} SleepsUntilNextSend(s: C.State, schedule: seq<C.Event>, queue: seq<nat>)
    requires C.Good(s) && Asleep(s, s.sent, queue)
    ensures var r := C.Run(s, schedule); s.sent <= r.sent && (r.sent == s.sent ==> Asleep(r, s.sent, queue))
  {
    hide C.Good, C.Step, Asleep;
    if schedule != [] {
      var front, e := schedule[..|schedule| - 1], schedule[|schedule| - 1];
      SleepsUntilNextSend(s, front, queue);
      var before := C.Run(s, front);
      if e.t < |before.calls| {
        HasShape(before);
        StepSends(before, e.t, e.request);
        if C.Step(before, e.t, e.request).sent == s.sent {
          StepStaysAsleep(before, e.t, e.request, queue);
        }
      }
    }
  }

  lemma HasShape(s: C.State)
    requires C.Good(s)
    ensures C.Shape(s)
  {
  }
}
