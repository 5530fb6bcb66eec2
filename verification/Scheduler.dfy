/**
 The ready queues.  Threads are filed by `INT_MAX` minus their priority, so the front of a queue is its
 best thread.
 */
module Schedulers {
  import opened Options
  import opened Lists

  const INT_MAX := 0x7fff_ffff
  const AMOUNT_OF_LISTS := 2

  type Thread = nat

  /** All the threads in all the queues. */
  function Total(ready: seq<seq<Entry<Thread>>>): multiset<Entry<Thread>> {
    if ready == [] then multiset{} else Total(ready[..|ready| - 1]) + multiset(ready[|ready| - 1])
  }

  lemma {:induction false} TotalAfter(ready: seq<seq<Entry<Thread>>>, i: nat, q: seq<Entry<Thread>>)
    requires i < |ready|
    ensures Total(ready[i := q]) + multiset(ready[i]) == Total(ready) + multiset(q)
  {
    var n := |ready| - 1;
    var front, last, after := ready[..n], multiset(ready[n]), ready[i := q];
    if i < n {
      TotalAfter(front, i, q);
      assert after[..n] == front[i := q];
      Swap(Total(front[i := q]), last, multiset(ready[i]), Total(front), multiset(q));
    } else {
      assert after[..n] == front;
    }
  }

  lemma Swap(a: multiset<Entry<Thread>>, last: multiset<Entry<Thread>>, x: multiset<Entry<Thread>>,
             b: multiset<Entry<Thread>>,
             y: multiset<Entry<Thread>>)
    requires a + x == b + y
    ensures (a + last) + x == (b + last) + y
  {
    assert (a + last) + x == (a + x) + last;
  }

  /** A queue whose first thread was taken off and filed again. */
  function Refiled(q: seq<Entry<Thread>>): seq<Entry<Thread>> {
    if q == [] then [] else Inserted(q[1..], q[0])
  }

  /**
   Filing the first thread again loses nothing, but puts it behind the threads of its own priority; the
   others keep their order.
   */
  lemma RefiledIsLastOfEquals(q: seq<Entry<Thread>>, key: int)
    requires Sorted(q) && q != []
    ensures Sorted(Refiled(q)) && multiset(Refiled(q)) == multiset(q)
    ensures WithKey(q, key) == (if q[0].key == key then [q[0]] else []) + WithKey(q[1..], key)
    ensures WithKey(Refiled(q), key) == WithKey(q[1..], key) + if q[0].key == key then [q[0]] else []
  {
    hide WithKey, Inserted;
    assert q == [q[0]] + q[1..];
    WithKeyOfSum([q[0]], q[1..], key);
    WithKeyOne(q[0], key);
    InsertionIsStable(q[1..], q[0], key);
  }

  class Scheduler {
    var readyList: seq<seq<Entry<Thread>>>

    /** Each queue is in order of priority, best first. */
    ghost predicate Valid()
      reads this
    {
      |readyList| == AMOUNT_OF_LISTS && Orderly(readyList)
    }

    ghost static predicate Orderly(ready: seq<seq<Entry<Thread>>>) {
      forall i :: 0 <= i < |ready| ==> Sorted(ready[i]) && forall j :: 0 <= j < |ready[i]| ==> ready[i][j].key >= 0
    }

    constructor ()
      ensures Valid() && Total(readyList) == multiset{}
    {
      readyList := [[], []];
    }

    method ReadyToRun(thread: Thread, priority: int, queue: nat)
      requires Valid() && queue < AMOUNT_OF_LISTS && 0 <= priority <= INT_MAX
      modifies this
      ensures Valid()
      ensures readyList == old(readyList)[queue := Inserted(old(readyList)[queue], Entry(INT_MAX - priority, thread))]
      ensures Total(readyList) == old(Total(readyList)) + multiset{Entry(INT_MAX - priority, thread)}
    {
      readyList := PutBack(readyList, queue, Entry(INT_MAX - priority, thread));
    }

    /** Files one thread in one queue. */
    static method PutBack(ready: seq<seq<Entry<Thread>>>, queue: nat, e: Entry<Thread>)
      returns (ready': seq<seq<Entry<Thread>>>)
      requires Orderly(ready) && queue < |ready| && e.key >= 0
      ensures Orderly(ready') && ready' == ready[queue := Inserted(ready[queue], e)]
      ensures Total(ready') == Total(ready) + multiset{e}
    {
      ready' := ready[queue := Inserted(ready[queue], e)];
      InsertedOrderly(ready, queue, e);
      hide Inserted, Orderly;
      InsertionAdds(ready[queue], e);
      TotalAfter(ready, queue, Inserted(ready[queue], e));
      assert Total(ready') + multiset(ready[queue]) == (Total(ready) + multiset{e}) + multiset(ready[queue]);
      Cancel(Total(ready'), Total(ready) + multiset{e}, multiset(ready[queue]));
    }

    static lemma InsertedOrderly(ready: seq<seq<Entry<Thread>>>, queue: nat, e: Entry<Thread>)
      requires Orderly(ready) && queue < |ready| && e.key >= 0
      ensures Orderly(ready[queue := Inserted(ready[queue], e)])
    {
      InsertionSorts(ready[queue], e);
    }

    static method TakeFirst(ready: seq<seq<Entry<Thread>>>, queue: nat)
      returns (e: Entry<Thread>, ready': seq<seq<Entry<Thread>>>)
      requires Orderly(ready) && queue < |ready| && ready[queue] != []
      ensures e == ready[queue][0] && e.key >= 0 && ready' == ready[queue := ready[queue][1..]] && Orderly(ready')
      ensures Total(ready') + multiset{e} == Total(ready)
    {
      e, ready' := ready[queue][0], ready[queue := ready[queue][1..]];
      TotalAfter(ready, queue, ready[queue][1..]);
      TakenTotal(Total(ready'), Total(ready), ready[queue]);
    }

    /**
     What the loop has found in the first `i` queues: `best`, first in `queue`, is held; the rest is
     back in place.
     */
    static ghost predicate Searched(before: seq<seq<Entry<Thread>>>, ready: seq<seq<Entry<Thread>>>, i: nat,
                                    best: Option<Entry<Thread>>, queue: nat) {
      && |ready| == |before| && Orderly(ready) && i <= |before|
      && (forall k :: i <= k < |before| ==> ready[k] == before[k])
      && (forall k :: 0 <= k < i ==> ready[k] == Left(before[k], best.Some? && k == queue))
      && Total(ready) + Held(best) == Total(before)
      && IsBest(before, i, best, queue)
    }

    /** What the search leaves of a queue. */
    static function Left(q: seq<Entry<Thread>>, chosen: bool): seq<Entry<Thread>> {
      if chosen && q != [] then q[1..] else Refiled(q)
    }

    static function Held(best: Option<Entry<Thread>>): multiset<Entry<Thread>> {
      if best.Some? then multiset{best.value} else multiset{}
    }

    /** The greatest key at the front of one of the first `i` queues; of equal ones the first. */
    static predicate IsBest(before: seq<seq<Entry<Thread>>>, i: nat, best: Option<Entry<Thread>>, queue: nat)
      requires i <= |before|
    {
      if best.Some? then
        && queue < i && best.value.key >= 0 && before[queue] != [] && best.value == before[queue][0]
        && (forall k :: 0 <= k < i && before[k] != [] ==> before[k][0].key <= best.value.key)
        && (forall k :: 0 <= k < queue && before[k] != [] ==> before[k][0].key < best.value.key)
      else forall k :: 0 <= k < i ==> before[k] == []
    }

    /** One queue: its first thread is taken if it has the greater key, and the one held so far goes back. */
    static method Consider(ghost before: seq<seq<Entry<Thread>>>, ready: seq<seq<Entry<Thread>>>, i: nat,
                           best: Option<Entry<Thread>>, queue: nat)
      returns (ready': seq<seq<Entry<Thread>>>, best': Option<Entry<Thread>>, queue': nat)
      requires Searched(before, ready, i, best, queue) && i < |ready|
      ensures Searched(before, ready', i + 1, best', queue')
    {
      hide Total, Orderly, Inserted;
      ready', best', queue' := ready, best, queue;
      if ready[i] == [] {
        return;
      }
      var e;
      e, ready' := TakeFirst(ready, i);
      var bestPriority := if best.Some? then best.value.key else -1;
      if e.key > bestPriority {
        if best.Some? {
          ready' := PutBack(ready', queue, best.value);
        }
        best', queue' := Some(e), i;
      } else {
        ready' := PutBack(ready', i, e);
      }
    }

    /**
     The first thread of queue `i` has the greatest key, and is taken; the other queues have their first
     one filed again.
     */
    static ghost predicate Chosen(before: seq<seq<Entry<Thread>>>, after: seq<seq<Entry<Thread>>>, i: nat) {
      && i < |before| == |after| && before[i] != [] && after[i] == before[i][1..]
      && (forall k :: 0 <= k < |before| && k != i ==> after[k] == Refiled(before[k]))
      && Total(after) + multiset{before[i][0]} == Total(before)
      && (forall k :: 0 <= k < |before| && before[k] != [] ==> before[k][0].key <= before[i][0].key)
      && (forall k :: 0 <= k < i && before[k] != [] ==> before[k][0].key < before[i][0].key)
    }

    /** What the whole loop has found. */
    static lemma SearchedAll(before: seq<seq<Entry<Thread>>>, after: seq<seq<Entry<Thread>>>,
                             best: Option<Entry<Thread>>, queue: nat)
      requires Searched(before, after, |before|, best, queue)
      ensures best.Some? ==> Chosen(before, after, queue) && before[queue][0] == best.value
      ensures best == None ==> after == before
      ensures best == None <==> forall i :: 0 <= i < |before| ==> before[i] == []
    {
      hide Total, Orderly, Inserted;
    }

    /**
     `Scheduler::FindNextToRun`: no ready thread is lost or duplicated; the one chosen is
     first in its queue, its key is the greatest of the first ones, and of several such
     queues it is in the earliest.  Every other queue has its first thread filed again.
     */
    method FindNextToRun() returns (next: Option<Thread>)
      requires Valid()
      modifies this
      ensures Valid()
      ensures next == None <==> forall i :: 0 <= i < AMOUNT_OF_LISTS ==> old(readyList)[i] == []
      ensures next == None ==> readyList == old(readyList)
      ensures next.Some? ==>
        exists i: nat :: Chosen(old(readyList), readyList, i) && old(readyList)[i][0].item == next.value
    {
      hide Total, Inserted;
      ghost var before := readyList;
      var queue: nat, i: nat, best: Option<Entry<Thread>> := 0, 0, None;
      while i < AMOUNT_OF_LISTS
        invariant 0 <= i <= AMOUNT_OF_LISTS && |before| == AMOUNT_OF_LISTS
          && Searched(before, readyList, i, best, queue)
      {
        readyList, best, queue := Consider(before, readyList, i, best, queue);
        i := i + 1;
      }
      next := if best.Some? then Some(best.value.item) else None;
      SearchedAll(before, readyList, best, queue);
    }
  }

  lemma TakenTotal(after: multiset<Entry<Thread>>, before: multiset<Entry<Thread>>, q: seq<Entry<Thread>>)
    requires q != [] && after + multiset(q) == before + multiset(q[1..])
    ensures after + multiset{q[0]} == before
  {
    assert q == [q[0]] + q[1..];
    assert (after + multiset{q[0]}) + multiset(q[1..]) == before + multiset(q[1..]);
    Cancel(after + multiset{q[0]}, before, multiset(q[1..]));
  }

  lemma Cancel(a: multiset<Entry<Thread>>, b: multiset<Entry<Thread>>, c: multiset<Entry<Thread>>)
    requires a + c == b + c
    ensures a == b
  {
    assert a == (a + c) - c;
    assert b == (b + c) - c;
  }
}
