/**
 Evicting another address space's frame, on a concrete machine: two programs are
 booted, the second loads all its pages and fills the memory, and then the first
 takes a frame.  `ReplacementNeedsOwnFrame` gives the exact condition for harm;
 this run shows that it bites.
 */
module ForeignVictim {
  import opened FlatMemory
  import opened Vm
  import opened PagingInvariant

  const EMPTY := Executable([], 0, [], 0, 0)

  /** A program of 64 pages whose first byte is 7. */
  const SEVEN := Executable([7], 0, [], 1, NUM_PHYS_PAGES * PAGE_SIZE - USER_STACK_SIZE - 1)

  /** Both programs created, neither loaded, the second dispatched. */
  function Boot(): (s: State)
    ensures Shape(s) && TlbEmpty(s)
  {
    State(
      [NewSpace(EMPTY), NewSpace(SEVEN)], 1,
      seq(TLB_SIZE, _ => Entry(0, 0, false, false, false, false)),
      Zeros(MEMORY_SIZE),
      seq(NUM_PHYS_PAGES, _ => false), seq(NUM_PHYS_PAGES, _ => 0), seq(NUM_PHYS_PAGES, _ => 0),
      0, 0)
  }

  /** `s` after the first `n` pages have gone into the first `n` frames, each time the first free one. */
  ghost predicate LoadedUpTo(s: State, n: nat) {
    && Inv(s) && TlbEmpty(s) && s.cur == 1 && SameViews(Boot(), s)
    && |s.spaces| == 2 && s.spaces[0] == NewSpace(EMPTY) && NumPages(s, 1) == NUM_PHYS_PAGES
    && (forall f :: 0 <= f < NUM_PHYS_PAGES ==> s.used[f] == (f < n))
    && (forall f :: 0 <= f < n && f < NUM_PHYS_PAGES ==> s.owner[f] == 1 && s.vpns[f] == f)
    && (forall v :: n <= v < NUM_PHYS_PAGES ==> !s.spaces[1].pageTable[v].valid)
  }

  lemma BootIsLoadedUpToNone()
    ensures LoadedUpTo(Boot(), 0)
  {
    assert PagesOf(SEVEN) == NUM_PHYS_PAGES;
    BootState(Boot());
  }

  lemma LoadOneMore(s: State, n: nat)
    requires LoadedUpTo(s, n) && n < NUM_PHYS_PAGES
    ensures LoadedUpTo(LoadInto(s, n, n), n + 1)
  {
    FreeFrameIsUnmapped(s, n);
    LoadKeepsInvariant(s, n, n);
    SameViewsCompose(Boot(), s, LoadInto(s, n, n));
    hide Inv, SameViews, PageOf;
  }

  ghost function OneMore(s: State, n: nat): (s': State)
    requires LoadedUpTo(s, n) && n < NUM_PHYS_PAGES
    ensures LoadedUpTo(s', n + 1)
  {
    LoadOneMore(s, n);
    LoadInto(s, n, n)
  }

  /** The state after loading pages 0 to `n`. */
  ghost function Loaded(n: nat): (s: State)
    requires n <= NUM_PHYS_PAGES
    ensures LoadedUpTo(s, n)
  {
    if n == 0 then
      BootIsLoadedUpToNone();
      Boot()
    else
      OneMore(Loaded(n - 1), n - 1)
  }

  lemma FirstByteIsSeven(s: State)
    requires Inv(s) && SameViews(Boot(), s)
    ensures |s.spaces| == 2 && |View(s, 1)| > 0 && View(s, 1)[0] == 7
  {
    assert PagesOf(SEVEN) == NUM_PHYS_PAGES;
    BootState(Boot());
    assert NumPages(s, 1) == NumPages(Boot(), 1) > 0;
    assert PageOf(Boot(), 1, 0) == PageOf(s, 1, 0);
    assert CodePart(SEVEN, 0) == [7];
  }

  /** Full of the second program, with the first one running and none of its pages loaded. */
  ghost predicate Stuffed(s: State) {
    && Inv(s) && TlbEmpty(s) && SameViews(Boot(), s) && Crowded(s) && CanEvict(s, 0)
    && s.cur == 0 && |s.spaces| == 2 && s.spaces[0] == NewSpace(EMPTY) && s.owner[0] == 1 && s.vpns[0] == 0
    && NumPages(s, 0) == PagesOf(EMPTY) > 0 && NumPages(s, 1) == PagesOf(SEVEN) > 0
  }

  lemma SwitchedIsStuffed(l: State)
    requires LoadedUpTo(l, NUM_PHYS_PAGES)
    ensures Stuffed(l.(cur := 0))
  {
    SwitchKeepsInvariant(l, 0);
    var s := l.(cur := 0);
    SameViewsCompose(Boot(), l, s);
    assert PagesOf(SEVEN) == NUM_PHYS_PAGES && PagesOf(EMPTY) > 0;
    hide InvBut, SameViews;
    assert s.owner[0] != s.cur && !s.spaces[0].pageTable[0].valid;
  }

  /** So it is when the second program has loaded all its 64 pages and the first one is dispatched. */
  lemma LoadedIsStuffed(n: nat)
    requires n == NUM_PHYS_PAGES
    ensures Stuffed(Loaded(n).(cur := 0))
  {
    hide Stuffed, LoadedUpTo;
    SwitchedIsStuffed(Loaded(n));
  }

  /** The eviction finds nothing to save in the wrong page table, and saves nothing. */
  lemma NothingSaved(s: State)
    requires Stuffed(s)
    ensures Evict(s, 0) == s
  {
    hide InvBut, SameViews, Crowded;
    var e := s.spaces[0].pageTable[0];
    assert TlbFindFrame(s.tlb, 0) == TLB_SIZE;
    assert s.spaces[0].pageTable[0 := e] == s.spaces[0].pageTable;
    assert s.spaces[0 := s.spaces[0]] == s.spaces;
  }

  /** The first program takes frame 0: the second program's first byte is no longer 7. */
  lemma StolenFrameCorruptsOwner(s: State)
    requires Stuffed(s)
    ensures
      var s' := LoadInto(Evict(s, 0), 0, 0);
      && Shape(s') && |s'.spaces| == 2 && |View(s, 1)| > 0 && |View(s', 1)| > 0
      && View(s, 1)[0] == 7 && View(s', 1)[0] == 0
  {
    FirstByteIsSeven(s);
    NothingSaved(s);
    assert FrameOk(s, 0);
    hide Evict, SameViews, Crowded, PteOk, CleanOk, SlotOk, NoDuplicates;
    var page := Backing(s.spaces[0], 0);
    assert CodePart(EMPTY, 0) == [] && page == Zeros(PAGE_SIZE);
    var s' := LoadInto(s, 0, 0);
    FrameOfPut(s.memory, 0, page, 0);
    assert s'.spaces[1] == s.spaces[1];
    assert PageOf(s', 1, 0) == page;
  }
}
