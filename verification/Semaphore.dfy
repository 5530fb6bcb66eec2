/** Semaphores.  `P` and `V` run with interrupts off, so each pass through the loop of `P` and each `V` is one step. */
module Semaphores {
  import opened Numbers

  type Tid = nat

  /** `woken` are threads taken off the queue by `V` that have not looked at `value` again yet. */
  datatype Sem = Sem(value: nat, queue: seq<Tid>, woken: set<Tid>)

  /** A pass through the loop of `P`: take a unit, or go to sleep at the end of the queue. */
  function Down(s: Sem, t: Tid): Sem {
    if s.value == 0 then Sem(0, s.queue + [t], s.woken - {t}) else Sem(s.value - 1, s.queue, s.woken - {t})
  }

  predicate Succeeds(s: Sem) {
    s.value > 0
  }

  function Up(s: Sem): Sem {
    if s.queue == [] then s.(value := s.value + 1)
    else Sem(s.value + 1, s.queue[1..], s.woken + {s.queue[0]})
  }

  /**
   Nobody is queued twice, or queued and woken; and there are no more units than threads on their way to
   fetch one.
   */
  ghost predicate SemOk(s: Sem) {
    && Distinct(s.queue)
    && (forall t :: t in s.queue ==> t !in s.woken)
    && (s.queue != [] ==> s.value <= |s.woken|)
  }

  lemma DownKeepsOk(s: Sem, t: Tid)
    requires SemOk(s) && t !in s.queue
    ensures SemOk(Down(s, t))
  {
    if t in s.woken {
      assert |s.woken - {t}| == |s.woken| - 1;
    }
  }

  lemma UpKeepsOk(s: Sem)
    requires SemOk(s)
    ensures SemOk(Up(s))
  {
    if s.queue != [] {
      assert s.queue[0] in s.queue;
      var rest := s.queue[1..];
      forall t | t in rest
        ensures t !in Up(s).woken
      {
        var i :| 0 <= i < |rest| && rest[i] == t;
        assert s.queue[i + 1] == t;
      }
    }
  }

  /** Who is queued or woken afterwards was so before, or is the caller of `P`. */
  lemma DownMembers(s: Sem, t: Tid)
    ensures forall u :: u in Down(s, t).queue || u in Down(s, t).woken ==> u in s.queue || u in s.woken || u == t
    ensures s.value > 0 && t !in s.queue ==> t !in Down(s, t).queue && t !in Down(s, t).woken
    ensures Down(s, t).value == if s.value == 0 then 0 else s.value - 1
  {
  }

  lemma UpMembers(s: Sem)
    ensures forall u :: u in Up(s).queue || u in Up(s).woken ==> u in s.queue || u in s.woken
    ensures Up(s).value == s.value + 1
  {
    if s.queue != [] {
      assert s.queue == [s.queue[0]] + s.queue[1..];
    }
  }

  // ---------- every schedule of any number of threads ----------

  datatype Event = P(t: Tid) | V

  /** The semaphore with what has been done to it. */
  datatype History = History(sem: Sem, initial: nat, downs: nat, ups: nat)

  /** One step of a schedule; a sleeping thread cannot run. */
  function Step(h: History, e: Event): History {
    match e
    case P(t) =>
      if t in h.sem.queue then h
      else h.(sem := Down(h.sem, t), downs := if Succeeds(h.sem) then h.downs + 1 else h.downs)
    case V => h.(sem := Up(h.sem), ups := h.ups + 1)
  }

  function Run(h: History, schedule: seq<Event>): History {
    if schedule == [] then h
    else Step(Run(h, schedule[..|schedule| - 1]), schedule[|schedule| - 1])
  }

  function Fresh(initial: nat): History {
    History(Sem(initial, [], {}), initial, 0, 0)
  }

  ghost predicate Inv(h: History) {
    SemOk(h.sem) && h.sem.value == h.initial + h.ups - h.downs
  }

  lemma StepKeepsInv(h: History, e: Event)
    requires Inv(h)
    ensures Inv(Step(h, e))
  {
    match e
    case P(t) =>
      if t !in h.sem.queue {
        DownKeepsOk(h.sem, t);
      }
    case V => UpKeepsOk(h.sem);
  }

  lemma {:induction false} RunKeepsInv(h: History, schedule: seq<Event>)
    requires Inv(h)
    ensures Inv(Run(h, schedule)) && Run(h, schedule).initial == h.initial
  {
    if schedule != [] {
      RunKeepsInv(h, schedule[..|schedule| - 1]);
      StepKeepsInv(Run(h, schedule[..|schedule| - 1]), schedule[|schedule| - 1]);
    }
  }

  /**
   In every schedule the value accounts for the completed operations, and a thread
   sleeps only if each unit that is there has been promised to a woken thread.
   */
  lemma NoLostWakeUp(initial: nat, schedule: seq<Event>)
    ensures
      var h := Run(Fresh(initial), schedule);
      && h.sem.value == initial + h.ups - h.downs
      && (h.sem.queue != [] ==> h.sem.value <= |h.sem.woken|)
      && (h.sem.queue != [] && h.sem.woken == {} ==> h.sem.value == 0)
  {
    RunKeepsInv(Fresh(initial), schedule);
  }

  /** How often thread `t` has been sent to sleep, and woken up again. */
  function Slept(h: History, schedule: seq<Event>, t: Tid): nat {
    if schedule == [] then 0
    else
      var n := |schedule| - 1;
      var before := Run(h, schedule[..n]);
      Slept(h, schedule[..n], t)
        + if SendsToSleep(before, schedule[n], t) then 1 else 0
  }

  function Woken(h: History, schedule: seq<Event>, t: Tid): nat {
    if schedule == [] then 0
    else
      var n := |schedule| - 1;
      var before := Run(h, schedule[..n]);
      Woken(h, schedule[..n], t)
        + if Wakes(before, schedule[n], t) then 1 else 0
  }

  /** Whether event `e` sends thread `t` to sleep, or wakes it. */
  predicate SendsToSleep(h: History, e: Event, t: Tid) {
    e == P(t) && t !in h.sem.queue && !Succeeds(h.sem)
  }

  predicate Wakes(h: History, e: Event, t: Tid) {
    e == V && h.sem.queue != [] && h.sem.queue[0] == t
  }

  lemma SleepStep(h: History, e: Event, t: Tid)
    requires Inv(h)
    ensures t in Step(h, e).sem.queue <==> SendsToSleep(h, e, t) || (t in h.sem.queue && !Wakes(h, e, t))
    ensures SendsToSleep(h, e, t) ==> t !in h.sem.queue
    ensures Wakes(h, e, t) ==> t in h.sem.queue
  {
    if e == V && h.sem.queue != [] {
      assert h.sem.queue == [h.sem.queue[0]] + h.sem.queue[1..];
    }
  }

  /** Each sleep is ended by at most one wake-up, and is still going on exactly while the thread is queued. */
  lemma {:induction false} SleepsAndWakeUps(initial: nat, schedule: seq<Event>, t: Tid)
    ensures
      var h := Fresh(initial);
      Slept(h, schedule, t) == Woken(h, schedule, t) + if t in Run(h, schedule).sem.queue then 1 else 0
  {
    if schedule != [] {
      var n := |schedule| - 1;
      var h := Fresh(initial);
      SleepsAndWakeUps(initial, schedule[..n], t);
      RunKeepsInv(h, schedule[..n]);
      SleepStep(Run(h, schedule[..n]), schedule[n], t);
      hide Inv, Step, SendsToSleep, Wakes, Fresh;
    }
  }

  // ---------- first asleep, first woken ----------

  /** `t` is queued in front of `u`. */
  ghost predicate InFront(queue: seq<Tid>, t: Tid, u: Tid) {
    exists i, j :: 0 <= i < j < |queue| && queue[i] == t && queue[j] == u
  }

  /** What one pass through `P` or one `V` can do to a semaphore. */
  ghost predicate Moves(s: Sem, s': Sem) {
    s' == s || s' == Up(s) || exists t :: t !in s.queue && s' == Down(s, t)
  }

  /** Whoever falls asleep does so behind all who sleep. */
  lemma LastAsleepIsLast(s: Sem, s': Sem, t: Tid, u: Tid)
    requires Moves(s, s') && u !in s.queue && u in s'.queue && t in s.queue && t in s'.queue
    ensures InFront(s'.queue, t, u)
  {
    if s' == Up(s) {
      assert false;
    }
    var x :| x !in s.queue && s' == Down(s, x);
    var i :| 0 <= i < |s.queue| && s.queue[i] == t;
    assert s'.queue[i] == t && s'.queue[|s.queue|] == u;
  }

  /** While both sleep, their order stays. */
  lemma OrderStays(s: Sem, s': Sem, t: Tid, u: Tid)
    requires Moves(s, s') && SemOk(s) && InFront(s.queue, t, u) && t in s'.queue && u in s'.queue
    ensures InFront(s'.queue, t, u)
  {
    var i, j :| 0 <= i < j < |s.queue| && s.queue[i] == t && s.queue[j] == u;
    if s' == Up(s) {
      if i == 0 {
        assert false;
      }
      assert s'.queue[i - 1] == t && s'.queue[j - 1] == u;
    } else {
      assert s'.queue[i] == t && s'.queue[j] == u;
    }
  }

  /** Nobody is woken past a thread in front of it. */
  lemma NobodyIsPassed(s: Sem, s': Sem, t: Tid, u: Tid)
    requires Moves(s, s') && SemOk(s) && InFront(s.queue, t, u)
    ensures u in s'.queue
  {
    var i, j :| 0 <= i < j < |s.queue| && s.queue[i] == t && s.queue[j] == u;
    if s' == Up(s) {
      assert s'.queue[j - 1] == u;
    } else {
      assert s'.queue[j] == u;
    }
  }

  /** A semaphore over time. */
  ghost predicate Traced(trace: seq<Sem>) {
    forall n :: 0 <= n < |trace| - 1 ==> SemOk(trace[n]) && Moves(trace[n], trace[n + 1])
  }

  /** `t` is asleep all the time from `i` to `k`, but for `i` itself. */
  ghost predicate AsleepSince(trace: seq<Sem>, i: nat, k: nat, t: Tid)
    requires k < |trace|
  {
    forall n :: i < n <= k ==> t in trace[n].queue
  }

  lemma {:induction false} StaysInFront(trace: seq<Sem>, i: nat, j: nat, k: nat, t: Tid, u: Tid)
    requires Traced(trace) && i < j < k < |trace| && AsleepSince(trace, i, k, t) && AsleepSince(trace, j, k, u)
    requires u !in trace[j].queue
    ensures InFront(trace[k].queue, t, u)
    decreases k
  {
    hide Moves, InFront, SemOk;
    assert t in trace[k].queue && u in trace[k].queue && t in trace[k - 1].queue;
    if k == j + 1 {
      LastAsleepIsLast(trace[j], trace[k], t, u);
    } else {
      StaysInFront(trace, i, j, k - 1, t, u);
      OrderStays(trace[k - 1], trace[k], t, u);
    }
  }

  lemma WokenInOrder(trace: seq<Sem>, i: nat, j: nat, k: nat, t: Tid, u: Tid)
    requires Traced(trace) && i < j < k < |trace| - 1 && AsleepSince(trace, i, k, t) && AsleepSince(trace, j, k, u)
    requires u !in trace[j].queue
    ensures u in trace[k + 1].queue
  {
    hide Moves, InFront, SemOk;
    StaysInFront(trace, i, j, k, t, u);
    NobodyIsPassed(trace[k], trace[k + 1], t, u);
  }

  /** The semaphore after 0, 1, 2 and so on events. */
  ghost function SemTrace(initial: nat, schedule: seq<Event>): (trace: seq<Sem>)
    ensures |trace| == |schedule| + 1
  {
    seq(|schedule| + 1, n requires 0 <= n <= |schedule| => Run(Fresh(initial), schedule[..n]).sem)
  }

  lemma HistoryIsTraced(initial: nat, schedule: seq<Event>)
    ensures Traced(SemTrace(initial, schedule))
  {
    forall n | 0 <= n < |schedule|
      ensures SemOk(SemTrace(initial, schedule)[n])
      ensures Moves(SemTrace(initial, schedule)[n], SemTrace(initial, schedule)[n + 1])
    {
      RunKeepsInv(Fresh(initial), schedule[..n]);
      assert schedule[..n + 1][..n] == schedule[..n];
    }
  }

  /**
   In every schedule sleepers are woken in the order in which they fell asleep: if `t` sleeps
   since event `i` and `u` since the later event `j`, event `k` does not wake `u`.
   */
  lemma FirstAsleepFirstWoken(initial: nat, schedule: seq<Event>, i: nat, j: nat, k: nat, t: Tid, u: Tid)
    requires i < j < k < |schedule|
    requires
      var trace := SemTrace(initial, schedule);
      AsleepSince(trace, i, k, t) && AsleepSince(trace, j, k, u) && u !in trace[j].queue
    ensures u in Run(Fresh(initial), schedule[..k + 1]).sem.queue
  {
    hide Moves, SemOk, Run, Traced, AsleepSince;
    HistoryIsTraced(initial, schedule);
    WokenInOrder(SemTrace(initial, schedule), i, j, k, t, u);
  }

  /** A `V` wakes exactly one sleeper, if there is one, and a pass through `P` wakes nobody. */
  lemma OneIsWoken(s: Sem, t: Tid, u: Tid)
    requires SemOk(s)
    ensures t in s.queue && t !in Up(s).queue && u in s.queue && u !in Up(s).queue ==> t == u
    ensures s.queue != [] ==> exists v :: v in s.queue && v !in Up(s).queue
    ensures t in s.queue ==> t in Down(s, u).queue
  {
    if s.queue != [] {
      assert s.queue == [s.queue[0]] + s.queue[1..];
      assert s.queue[0] in s.queue && s.queue[0] !in Up(s).queue;
    }
  }
}
