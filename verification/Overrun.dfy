/**
 Programs that together have more pages than there are frames: under FIFO and under the clock
 there is always a run that comes to an eviction across address spaces.
 */
module Overruns {
  import opened Numbers
  import opened FlatMemory
  import opened FlatMachine
  import opened Vm
  import opened PagingInvariant
  import opened Bitmaps
  import opened Kernels
  import opened UserRuns

  /** A page of an address space. */
  datatype Page = Page(space: nat, vpn: nat)

  predicate IsPage(p: Page, counts: seq<nat>) {
    p.space < |counts| && p.vpn < counts[p.space]
  }

  function PagesOfSpace(i: nat, n: nat): (r: seq<Page>)
    ensures |r| == n && forall v :: 0 <= v < n ==> r[v] == Page(i, v)
  {
    seq(n, v requires 0 <= v < n => Page(i, v))
  }

  /** All pages, space by space. */
  function InOrder(counts: seq<nat>): seq<Page> {
    if counts == [] then []
    else InOrder(counts[..|counts| - 1]) + PagesOfSpace(|counts| - 1, counts[|counts| - 1])
  }

  predicate Different(pages: seq<Page>) {
    forall x, y :: 0 <= x < y < |pages| ==> pages[x] != pages[y]
  }

  /** Every page comes once, those of the first space first. */
  lemma {:induction false} EveryPage(counts: seq<nat>)
    ensures |InOrder(counts)| == Sum(counts) && Different(InOrder(counts))
    ensures forall x :: 0 <= x < |InOrder(counts)| ==> IsPage(InOrder(counts)[x], counts)
    ensures counts != [] ==> forall x :: counts[0] <= x < |InOrder(counts)| ==> InOrder(counts)[x].space != 0
  {
    if counts != [] {
      var front, n := counts[..|counts| - 1], counts[|counts| - 1];
      EveryPage(front);
      var before, all := InOrder(front), InOrder(counts);
      forall x | 0 <= x < |all|
        ensures IsPage(all[x], counts) && (x < |before| ==> all[x] == before[x])
          && (x >= |before| ==> all[x].space == |front|)
      {
        assert x < |before| ==> IsPage(before[x], front);
      }
      if front == [] {
        assert before == [] && |all| == n;
      }
    }
  }

  /**
   The pages to load one after the other into `n` frames, and the one to ask for then: the first one
   loaded is another space's.
   */
  ghost predicate Collides(order: seq<Page>, last: Page, counts: seq<nat>, n: nat) {
    && |order| == n > 0 && Different(order) && (forall x :: 0 <= x < |order| ==> IsPage(order[x], counts))
    && IsPage(last, counts) && last !in order && order[0].space != last.space
  }

  function Order(counts: seq<nat>, n: nat): seq<Page>
    requires |counts| >= 2 && Sum(counts) > n > 0
  {
    EveryPage(counts);
    if counts[0] > n then [Page(1, 0)] + PagesOfSpace(0, n - 1) else InOrder(counts)[..n]
  }

  function Missing(counts: seq<nat>, n: nat): Page
    requires |counts| >= 2 && Sum(counts) > n > 0
  {
    EveryPage(counts);
    if counts[0] > n then Page(0, n - 1) else InOrder(counts)[n]
  }

  lemma {:induction false} FirstIsFirst(counts: seq<nat>)
    requires counts != [] && counts[0] > 0
    ensures InOrder(counts) != [] && InOrder(counts)[0] == Page(0, 0)
  {
    var front := counts[..|counts| - 1];
    if front != [] {
      FirstIsFirst(front);
    } else {
      assert InOrder(front) == [];
    }
  }

  lemma OrderCollides(counts: seq<nat>, n: nat)
    requires |counts| >= 2 && Sum(counts) > n > 0 && counts[0] > 0 && counts[1] > 0
    ensures Collides(Order(counts, n), Missing(counts, n), counts, n)
  {
    hide InOrder, Sum;
    EveryPage(counts);
    FirstIsFirst(counts);
    if counts[0] <= n {
      forall x | 0 <= x < n
        ensures InOrder(counts)[x] != InOrder(counts)[n]
      {
      }
    }
  }

  /** The first frames hold the pages of `order`, the others are free, and the hand is at the first one. */
  ghost predicate Stocked(s: State, order: seq<Page>) {
    && Shape(s) && |order| <= NUM_PHYS_PAGES && s.hand == 0
    && (forall f :: 0 <= f < NUM_PHYS_PAGES ==> (s.used[f] <==> f < |order|))
    && (forall f :: 0 <= f < |order| ==> s.owner[f] == order[f].space && s.vpns[f] == order[f].vpn)
  }

  lemma NotStocked(s: State, order: seq<Page>, p: Page)
    requires Inv(s) && Stocked(s, order) && p !in order && p.space < |s.spaces| && p.vpn < NumPages(s, p.space)
    ensures !s.spaces[p.space].pageTable[p.vpn].valid
  {
    assert PteOk(s, p.space, p.vpn);
  }

  lemma FirstClearAt(bits: seq<bool>, n: nat)
    requires n < |bits| && !bits[n] && forall f :: 0 <= f < n ==> bits[f]
    ensures FirstClear(bits, 0) == n
  {
  }

  lemma StockedMore(s: State, s': State, order: seq<Page>, p: Page)
    requires Stocked(s, order) && |order| < NUM_PHYS_PAGES && p == Page(s.cur, p.vpn) && Shape(s')
    requires Shelved(s, s', FirstClear(s.used, 0), p.vpn) && s'.hand == s.hand
    ensures Stocked(s', order + [p])
  {
    FirstClearAt(s.used, |order|);
  }

  /** With every frame taken, and the first one by another space, FIFO and the clock have to stop. */
  lemma StockedStops(policy: Policy, s: State, order: seq<Page>, p: Page)
    requires Inv(s) && Stocked(s, order) && |order| == NUM_PHYS_PAGES && !policy.Random?
    requires p.space == s.cur && p !in order && p.vpn < NumPages(s, s.cur) && order[0].space != s.cur
    ensures Stops(policy, s, p.vpn)
  {
    hide PteOk, CleanOk, SlotOk, FrameOk, NoDuplicates, ClockChoice;
    NotStocked(s, order, p);
    ForeignVictim(policy, s);
  }

  lemma StockedRoomy(s: State, order: seq<Page>, p: Page)
    requires Inv(s) && Stocked(s, order) && |order| < NUM_PHYS_PAGES && p.space == s.cur && p !in order
      && p.vpn < NumPages(s, s.cur)
    ensures Roomy(s, p.vpn) && !s.spaces[s.cur].pageTable[p.vpn].valid
  {
    hide PteOk, CleanOk, SlotOk, FrameOk, NoDuplicates;
    NotStocked(s, order, p);
    assert !s.used[|order|];
  }

  ghost predicate SameCounts(s: State, s': State) {
    |s.spaces| == |s'.spaces| && forall i :: 0 <= i < |s.spaces| ==> NumPages(s, i) == NumPages(s', i)
  }

  lemma SameFlatSameCounts(s: State, s': State)
    requires Shape(s) && Shape(s') && FlatOf(s) == FlatOf(s')
    ensures SameCounts(s, s')
  {
    assert |FlatOf(s).memories| == |FlatOf(s').memories|;
    forall i | 0 <= i < |s.spaces|
      ensures NumPages(s, i) == NumPages(s', i)
    {
      assert |FlatOf(s).memories[i]| == NumPages(s, i) * PAGE_SIZE;
      assert |FlatOf(s').memories[i]| == NumPages(s', i) * PAGE_SIZE;
    }
  }

  lemma FirstByte(s: State, v: nat)
    requires Shape(s) && v < NumPages(s, s.cur)
    ensures InBounds(FlatOf(s), v * PAGE_SIZE, 1) && v * PAGE_SIZE / PAGE_SIZE == v
  {
    assert |FlatOf(s).memories[s.cur]| == NumPages(s, s.cur) * PAGE_SIZE;
  }

  lemma StockedStays(s: State, s': State, order: seq<Page>)
    requires Stocked(s, order) && Shape(s') && SameShelf(s, s')
    ensures Stocked(s', order)
  {
  }

  /** Dispatches the page's space and reads its first byte. */
  method Visit(k: Kernel, p: Page, ghost order: seq<Page>) returns (foreign: bool)
    requires k.Valid() && Stocked(k.S(), order) && p !in order
    requires p.space < |k.spaces| && p.vpn < NumPages(k.S(), p.space)
    modifies k.Repr()
    ensures k.Valid() && SameCounts(old(k.S()), k.S())
    ensures |order| < NUM_PHYS_PAGES ==> !foreign && Stocked(k.S(), order + [p])
    ensures !k.policy.Random? && |order| == NUM_PHYS_PAGES && order[0].space != p.space ==> foreign && Crowded(k.S())
  {
    hide PteOk, CleanOk, SlotOk, FrameOk, NoDuplicates, Stocked, Stops, Roomy, Crowded, FlatOf, View, InBounds, PageOf;
    ghost var s0 := k.S();
    k.ContextSwitch(p.space);
    ghost var s := k.S();
    StockedStays(s0, s, order);
    FirstByte(s, p.vpn);
    if |order| < NUM_PHYS_PAGES {
      StockedRoomy(s, order, p);
    } else if !k.policy.Random? && order[0].space != p.space {
      StockedStops(k.policy, s, order, p);
    }
    var values;
    foreign, values := PerformLoad(k, p.vpn * PAGE_SIZE, 1);
    SameFlatSameCounts(s, k.S());
    if |order| < NUM_PHYS_PAGES {
      StockedMore(s, k.S(), order, p);
    }
  }

  /** The pages of all programs. */
  function Counts(programs: seq<Executable>): (counts: seq<nat>)
    ensures |counts| == |programs|
  {
    seq(|programs|, i requires 0 <= i < |programs| => PagesOf(programs[i]))
  }

  ghost predicate HasCounts(s: State, counts: seq<nat>) {
    |s.spaces| == |counts| && forall i :: 0 <= i < |counts| ==> NumPages(s, i) == counts[i]
  }

  lemma StillCounts(s: State, s': State, counts: seq<nat>)
    requires HasCounts(s, counts) && SameCounts(s, s')
    ensures HasCounts(s', counts)
  {
  }

  lemma CountsAt(s: State, counts: seq<nat>, p: Page)
    requires HasCounts(s, counts) && IsPage(p, counts)
    ensures p.space < |s.spaces| && p.vpn < NumPages(s, p.space)
  {
  }

  /** Loads the pages of `order`, asks for `last`, and has to stop. */
  method Collide(k: Kernel, order: seq<Page>, last: Page, ghost counts: seq<nat>) returns (foreign: bool)
    requires k.Valid() && !k.policy.Random? && HasCounts(k.S(), counts) && Stocked(k.S(), [])
    requires Collides(order, last, counts, |order|) && |order| == NUM_PHYS_PAGES
    modifies k.Repr()
    ensures k.Valid() && foreign && Crowded(k.S())
  {
    hide Stocked, InvBut, HasCounts, SameCounts, Crowded;
    foreign := false;
    assert order[..0] == [] && order[..|order|] == order;
    for n := 0 to |order|
      invariant k.Valid() && HasCounts(k.S(), counts) && Stocked(k.S(), order[..n])
    {
      assert order[..n + 1] == order[..n] + [order[n]];
      ghost var s := k.S();
      CountsAt(s, counts, order[n]);
      foreign := Visit(k, order[n], order[..n]);
      StillCounts(s, k.S(), counts);
    }
    CountsAt(k.S(), counts, last);
    foreign := Visit(k, last, order);
  }

  lemma BootIsStocked(s: State, programs: seq<Executable>)
    requires Shape(s) && s.hand == 0 && (forall f :: 0 <= f < NUM_PHYS_PAGES ==> !s.used[f]) && |s.spaces| == |programs|
    requires forall i :: 0 <= i < |programs| ==> s.spaces[i] == NewSpace(programs[i])
    ensures Stocked(s, []) && HasCounts(s, Counts(programs))
  {
  }

  lemma StacksNeedPages(programs: seq<Executable>)
    ensures forall i :: 0 <= i < |programs| ==> Counts(programs)[i] > 0
  {
  }

  /**
   Boots the programs and makes them collide: with FIFO or the clock, if they do not fit,
   the last access of this run has to take a frame from another program.
   */
  method Overrun(policy: Policy, programs: seq<Executable>) returns (k: Kernel, foreign: bool)
    requires |programs| >= 2 && forall i :: 0 <= i < |programs| ==> LayoutOk(programs[i])
    requires !policy.Random? && Sum(Counts(programs)) > NUM_PHYS_PAGES
    ensures fresh(k) && k.Valid() && k.policy == policy && foreign && Crowded(k.S())
  {
    hide Order, Missing, Stocked, HasCounts, Counts, PteOk, CleanOk, SlotOk, FrameOk, NoDuplicates, NewSpace, Crowded,
      Sum;
    k := new Kernel(policy, programs);
    var counts, frames := Counts(programs), NUM_PHYS_PAGES;
    BootIsStocked(k.S(), programs);
    StacksNeedPages(programs);
    OrderCollides(counts, frames);
    foreign := Collide(k, Order(counts, frames), Missing(counts, frames), counts);
  }
}
