/** The synchronous disk: a lock around one request at a time, and a semaphore raised by the completion interrupt. */
module SynchDisks {
  import opened Numbers
  import opened Semaphores
  import M = Monitors

  /** A caller of `ReadSector` or `WriteSector`; requests are numbered as they are issued. */
  datatype Call =
    | Idle
    | Starting          // about to issue its request
    | Waiting(r: nat)   // request `r` issued, at or asleep in `semaphore->P()`
    | Done(r: nat)      // `P` has returned, about to release the lock

  /** `pending` counts completion interrupts that have been scheduled and have not fired. */
  datatype State = State(m: M.Monitor, sem: Sem, active: bool, pending: nat, issued: nat, completed: nat,
    calls: seq<Call>)

  datatype Event = Thread(t: Tid) | Interrupt

  predicate Shape(s: State) {
    M.Shape(s.m) && |s.calls| == |s.m.threads|
  }

  function Calls(s: State, t: Tid, call: Call): State
    requires t < |s.calls|
  {
    s.(calls := s.calls[t := call])
  }

  function Step(s: State, e: Event): State
    requires Shape(s)
  {
    match e
    case Thread(t) => if t < |s.calls| then Move(s, t) else s
    case Interrupt =>
      if s.pending == 0 then s
      else s.(active := false, pending := s.pending - 1, completed := s.completed + 1, sem := Up(s.sem))
  }

  function Move(s: State, t: Tid): State
    requires Shape(s) && t < |s.calls|
  {
    match s.m.threads[t]
    case Out => if s.calls[t] == Idle then Calls(s, t, Starting).(m := M.Step(s.m, t, M.Enter)) else s
    case In =>
      (match s.calls[t]
       case Starting => Calls(s, t, Waiting(s.issued)).(active := true, pending := s.pending + 1,
         issued := s.issued + 1)
       case Waiting(r) =>
         if t in s.sem.queue then s
         else Calls(s, t, if Succeeds(s.sem) then Done(r) else Waiting(r)).(sem := Down(s.sem, t))
       case Done(_) => Calls(s, t, Idle).(m := M.Step(s.m, t, M.Leave))
       case Idle => s)
    case _ => s.(m := M.Step(s.m, t, M.Stay))
  }

  /** Nothing requested, nothing due, nobody asleep. */
  predicate Quiet(s: State) {
    !s.active && s.sem.value == 0 && s.sem.queue == []
  }

  ghost predicate CallOk(s: State, t: Tid)
    requires t < |s.calls| == |s.m.threads|
  {
    var pc := s.m.threads[t];
    match s.calls[t]
    case Idle => pc.Out? || pc.Releasing?
    case Starting => (pc.Acquiring? || pc.Acquired? || pc.In?) && (pc.In? ==> Quiet(s))
    case Waiting(r) =>
      && pc.In? && s.issued == r + 1
      && (forall u :: u in s.sem.queue ==> u == t)
      && (if s.active then s.sem.value == 0 && s.completed == r
          else s.sem.value == 1 && s.sem.queue == [] && s.completed == r + 1)
    case Done(r) => pc.In? && Quiet(s) && r < s.completed
  }

  ghost predicate Inv(s: State) {
    && M.Inv(s.m) && Shape(s)
    && SemOk(s.sem)
    && s.pending == (if s.active then 1 else 0) && s.issued == s.completed + s.pending
    && (forall t :: 0 <= t < |s.calls| ==> CallOk(s, t))
    && (Quiet(s) || exists t :: 0 <= t < |s.calls| && s.calls[t].Waiting?)
  }

  /** What a caller relies on changes only at the hands of the one who holds the lock. */
  lemma OthersStayOk(s: State, s': State, t: Tid, u: Tid)
    requires Inv(s) && t < |s.calls| && u < |s.calls| && u != t
    requires |s'.calls| == |s'.m.threads| == |s.calls| && s'.calls[u] == s.calls[u] && s'.m.threads[u] == s.m.threads[u]
    requires s.m.threads[t].In?
      || (s'.sem == s.sem && s'.active == s.active && s'.completed == s.completed && s'.issued == s.issued)
    requires s'.completed >= s.completed
    ensures CallOk(s', u)
  {
    assert CallOk(s, u);
    assert !(M.Holds(s.m.threads[t]) && M.Holds(s.m.threads[u]));
  }

  lemma MonitorFrame(m: M.Monitor, t: Tid, choice: M.Choice)
    requires M.Inv(m) && t < |m.threads|
    ensures
      M.Shape(m)
      && var r := M.Step(m, t, choice);
         && M.Inv(r) && M.Shape(r) && |r.threads| == |m.threads|
         && (forall u :: 0 <= u < |m.threads| && u != t ==> r.threads[u] == m.threads[u])
  {
    M.StepKeepsInv(m, t, choice);
    M.InvHasShape(M.Step(m, t, choice));
    assert M.InRange(m.threads[t], |m.tickets|);
  }

  /** Steps of the lock alone. */
  lemma LockStepKeepsInv(s: State, t: Tid)
    requires Inv(s) && t < |s.calls| && (!s.m.threads[t].In? || s.calls[t].Done? || s.calls[t].Idle?)
    ensures Inv(Move(s, t))
  {
    hide M.LockInv, M.WaitInv, M.Step;
    assert CallOk(s, t);
    if s.m.threads[t].Out? {
      MonitorFrame(s.m, t, M.Enter);
    } else if s.m.threads[t].In? {
      MonitorFrame(s.m, t, M.Leave);
    } else {
      MonitorFrame(s.m, t, M.Stay);
    }
    OwnLockStep(s, t);
    var s' := Move(s, t);
    forall u | 0 <= u < |s.calls|
      ensures CallOk(s', u)
    {
      if u != t {
        OthersStayOk(s, s', t, u);
      }
    }
    if !Quiet(s) {
      var u :| 0 <= u < |s.calls| && s.calls[u].Waiting?;
      assert CallOk(s, u);
      assert s'.calls[u].Waiting?;
    }
  }

  lemma OwnLockStep(s: State, t: Tid)
    requires Inv(s) && t < |s.calls| && (!s.m.threads[t].In? || s.calls[t].Done? || s.calls[t].Idle?)
    ensures var s' := Move(s, t); |s'.calls| == |s'.m.threads| == |s.calls| && CallOk(s', t)
  {
    assert CallOk(s, t);
    if s.m.threads[t].Acquired? {
      assert M.Holds(s.m.threads[t]);
      forall u | 0 <= u < |s.calls|
        ensures !s.calls[u].Waiting?
      {
        assert CallOk(s, u);
        assert u != t ==> !M.Holds(s.m.threads[u]);
      }
    }
  }

  /** Issuing a request, and passing through `P` on the semaphore. */
  lemma RequestStepKeepsInv(s: State, t: Tid)
    requires Inv(s) && t < |s.calls| && s.m.threads[t].In? && (s.calls[t].Starting? || s.calls[t].Waiting?)
    ensures Inv(Move(s, t))
  {
    var s' := Move(s, t);
    assert CallOk(s, t);
    if s.calls[t].Waiting? && t !in s.sem.queue {
      DownKeepsOk(s.sem, t);
    }
    assert CallOk(s', t);
    forall u | 0 <= u < |s.calls|
      ensures CallOk(s', u)
    {
      if u != t {
        OthersStayOk(s, s', t, u);
      }
    }
    assert Quiet(s') || s'.calls[t].Waiting?;
  }

  lemma OneOfTwoDiffers(q: seq<Tid>, t: Tid)
    requires Distinct(q)
    ensures |q| > 1 ==> exists u :: u in q && u != t
  {
    if |q| > 1 {
      var u := if q[0] == t then q[1] else q[0];
      assert u in q && u != t;
    }
  }

  lemma InterruptKeepsInv(s: State)
    requires Inv(s)
    ensures Inv(Step(s, Interrupt))
  {
    var s' := Step(s, Interrupt);
    if s.pending > 0 {
      UpKeepsOk(s.sem);
      var t :| 0 <= t < |s.calls| && s.calls[t].Waiting?;
      OneOfTwoDiffers(s.sem.queue, t);
      assert CallOk(s, t);
      forall u | 0 <= u < |s.calls|
        ensures CallOk(s', u)
      {
        assert CallOk(s, u);
        assert u != t ==> !(M.Holds(s.m.threads[t]) && M.Holds(s.m.threads[u]));
      }
      assert s'.calls[t].Waiting?;
    }
  }

  lemma StepKeepsInv(s: State, e: Event)
    requires Inv(s)
    ensures Inv(Step(s, e))
  {
    match e
    case Interrupt => InterruptKeepsInv(s);
    case Thread(t) =>
      if t < |s.calls| {
        if s.m.threads[t].In? && (s.calls[t].Starting? || s.calls[t].Waiting?) {
          RequestStepKeepsInv(s, t);
        } else {
          LockStepKeepsInv(s, t);
        }
      }
  }

  /** Any schedule of callers and completion interrupts. */
  ghost function Run(s: State, schedule: seq<Event>): (r: State)
    requires Inv(s)
    ensures Inv(r)
  {
    if schedule == [] then s
    else
      var before := Run(s, schedule[..|schedule| - 1]);
      StepKeepsInv(before, schedule[|schedule| - 1]);
      Step(before, schedule[|schedule| - 1])
  }

  ghost function Fresh(threads: nat): (s: State)
    ensures Inv(s)
  {
    var s := State(M.Fresh(threads, 0), Sem(0, [], {}), false, 0, 0, 0, seq(threads, _ => Idle));
    M.InvHasShape(s.m);
    s
  }

  /** Never more than one request outstanding, and never one issued while another is active. */
  lemma OneRequestAtATime(threads: nat, schedule: seq<Event>, t: Tid)
    ensures
      var s := Run(Fresh(threads), schedule);
      && s.issued <= s.completed + 1 && (s.active <==> s.issued == s.completed + 1)
      && (t < |s.calls| && s.m.threads[t].In? && s.calls[t].Starting? ==> !s.active)
  {
    var s := Run(Fresh(threads), schedule);
    if t < |s.calls| {
      assert CallOk(s, t);
    }
  }

  /** A caller gets past `P` only when its own request, not just some request, has completed. */
  lemma ReturnsAfterOwnRequest(threads: nat, schedule: seq<Event>, t: Tid)
    ensures
      var s := Run(Fresh(threads), schedule);
      && (t < |s.calls| && s.calls[t].Done? ==> s.calls[t].r < s.completed)
      && (t < |s.calls| && s.calls[t].Waiting? && t !in s.sem.queue && Succeeds(s.sem) ==> s.calls[t].r < s.completed)
      && (t < |s.calls| && s.calls[t].Waiting? && t in s.sem.queue ==> s.active)
  {
    var s := Run(Fresh(threads), schedule);
    if t < |s.calls| {
      assert CallOk(s, t);
    }
  }
}
