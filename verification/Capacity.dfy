/** When physical memory is large enough: counting pages against frames. */
module Capacity {
  import opened Numbers
  import opened FlatMemory
  import opened Vm
  import opened PagingInvariant

  /** The pages of space `i`. */
  function PagesOfSpace(i: nat, count: nat): (pages: set<(nat, nat)>)
    ensures forall p :: p in pages <==> p.0 == i && p.1 < count
  {
    if count == 0 then {} else PagesOfSpace(i, count - 1) + {(i, count - 1)}
  }

  /** The pages of all spaces, given how many each has. */
  function AllPages(counts: seq<nat>): (pages: set<(nat, nat)>)
    ensures forall p :: p in pages <==> p.0 < |counts| && p.1 < counts[p.0]
  {
    if counts == [] then {}
    else
      var n := |counts| - 1;
      AllPages(counts[..n]) + PagesOfSpace(n, counts[n])
  }

  lemma {:induction false} CountPagesOfSpace(i: nat, count: nat)
    ensures |PagesOfSpace(i, count)| == count
  {
    if count > 0 {
      CountPagesOfSpace(i, count - 1);
    }
  }

  lemma {:induction false} CountAllPages(counts: seq<nat>)
    ensures |AllPages(counts)| == Sum(counts)
  {
    if counts != [] {
      var n := |counts| - 1;
      CountAllPages(counts[..n]);
      CountPagesOfSpace(n, counts[n]);
      assert AllPages(counts[..n]) !! PagesOfSpace(n, counts[n]);
    }
  }

  function PageCounts(s: State): seq<nat> {
    seq(|s.spaces|, i requires 0 <= i < |s.spaces| => NumPages(s, i))
  }

  /** The pages in the first `n` frames. */
  ghost function Held(s: State, n: nat): (pages: set<(nat, nat)>)
    requires Inv(s) && Full(s) && n <= NUM_PHYS_PAGES
    ensures forall p :: p in pages <==> exists f :: 0 <= f < n && p == (s.owner[f], s.vpns[f])
  {
    if n == 0 then {} else Held(s, n - 1) + {(s.owner[n - 1], s.vpns[n - 1])}
  }

  /** Different frames hold different pages, and all of them valid. */
  lemma {:induction false} CountHeld(s: State, n: nat)
    requires Inv(s) && Full(s) && n <= NUM_PHYS_PAGES
    ensures |Held(s, n)| == n
  {
    if n > 0 {
      CountHeld(s, n - 1);
      assert FrameOk(s, n - 1);
      forall f | 0 <= f < n - 1
        ensures (s.owner[f], s.vpns[f]) != (s.owner[n - 1], s.vpns[n - 1])
      {
        assert FrameOk(s, f);
      }
    }
  }

  /** What a frame holds is a valid page of some space. */
  lemma HeldIsPage(s: State, n: nat, p: (nat, nat))
    requires Inv(s) && Full(s) && n <= NUM_PHYS_PAGES && p in Held(s, n)
    ensures p.0 < |s.spaces| && p.1 < NumPages(s, p.0) && s.spaces[p.0].pageTable[p.1].valid
  {
    hide Held, PteOk, CleanOk, SlotOk, NoDuplicates;
    var f :| 0 <= f < n && p == (s.owner[f], s.vpns[f]);
    assert FrameOk(s, f);
  }

  /** If every frame is in use and a page is missing, there are more pages than frames. */
  lemma MorePagesThanFrames(s: State, v: nat)
    requires Inv(s) && Full(s) && v < NumPages(s, s.cur) && !s.spaces[s.cur].pageTable[v].valid
    ensures Sum(PageCounts(s)) > NUM_PHYS_PAGES
  {
    hide Held, AllPages, Sum, PteOk, CleanOk, SlotOk, NoDuplicates;
    var n := |s.used|;
    var held, all := Held(s, n), AllPages(PageCounts(s));
    CountHeld(s, n);
    CountAllPages(PageCounts(s));
    forall p | p in held
      ensures p in all && p != (s.cur, v)
    {
      HeldIsPage(s, n, p);
    }
    Subset(held + {(s.cur, v)}, all);
  }

  lemma {:induction false} Subset(a: set<(nat, nat)>, b: set<(nat, nat)>)
    requires a <= b
    ensures |a| <= |b|
    decreases a
  {
    if a != {} {
      var x :| x in a;
      Subset(a - {x}, b - {x});
    }
  }
}
