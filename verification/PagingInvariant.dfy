/**
 The paging invariant and the proof that every step of the paging machinery
 keeps it and keeps the flat memory of every address space.
 */
module PagingInvariant {
  import opened FlatMemory
  import opened Vm

  /** Page-table entry `v` of space `i`; a valid one names a frame that the coremap gives to it. */
  ghost predicate PteOk(s: State, i: nat, v: nat)
    requires Shape(s) && i < |s.spaces| && v < NumPages(s, i)
  {
    var e := s.spaces[i].pageTable[v];
    && e.virtualPage == v
    && !e.readOnly
    && (e.valid ==>
          && e.physicalPage < NUM_PHYS_PAGES
          && s.used[e.physicalPage] && s.owner[e.physicalPage] == i && s.vpns[e.physicalPage] == v)
    && (!e.valid ==> !e.dirty)
    && (s.spaces[i].swapMap[v] ==> |s.spaces[i].swap| >= (v + 1) * PAGE_SIZE)
  }

  /** A used frame is mapped by the page that the coremap names. */
  ghost predicate FrameOk(s: State, f: nat)
    requires Shape(s) && f < NUM_PHYS_PAGES
  {
    s.used[f] ==>
      && s.owner[f] < |s.spaces|
      && s.vpns[f] < NumPages(s, s.owner[f])
      && var e := s.spaces[s.owner[f]].pageTable[s.vpns[f]];
         e.valid && e.physicalPage == f
  }

  predicate Full(s: State)
    requires Shape(s)
  {
    forall f :: 0 <= f < NUM_PHYS_PAGES ==> s.used[f]
  }

  /** Every frame is in use, some by an address space that is not running. */
  ghost predicate Shared(s: State)
    requires Shape(s)
  {
    Full(s) && exists f :: 0 <= f < NUM_PHYS_PAGES && s.owner[f] != s.cur
  }

  /** And the running space lacks a page. */
  ghost predicate Crowded(s: State)
    requires Shape(s)
  {
    Shared(s) && exists v :: 0 <= v < NumPages(s, s.cur) && !s.spaces[s.cur].pageTable[v].valid
  }

  /** A valid TLB slot copies a valid entry of the running page table, flags apart. */
  ghost predicate SlotOk(s: State, j: nat)
    requires Shape(s) && j < TLB_SIZE
  {
    var t := s.tlb[j];
    t.valid ==>
      && !t.readOnly
      && t.virtualPage < NumPages(s, s.cur)
      && var e := s.spaces[s.cur].pageTable[t.virtualPage];
         e.valid && e.physicalPage == t.physicalPage
  }

  ghost predicate NoDuplicates(tlb: seq<Entry>) {
    forall j, k :: 0 <= j < k < |tlb| && tlb[j].valid && tlb[k].valid ==>
      tlb[j].virtualPage != tlb[k].virtualPage
  }

  /** The dirty bit that counts: the TLB copy if there is one, else the page table's. */
  ghost predicate Dirty(s: State, i: nat, v: nat)
    requires Shape(s) && i < |s.spaces| && v < NumPages(s, i)
  {
    var j := TlbFind(s.tlb, v);
    if i == s.cur && j < TLB_SIZE then s.tlb[j].dirty else s.spaces[i].pageTable[v].dirty
  }

  /** A page whose dirty bit is clear equals its backing store. */
  ghost predicate CleanOk(s: State, i: nat, v: nat)
    requires Shape(s) && i < |s.spaces| && v < NumPages(s, i)
  {
    Dirty(s, i, v) || PageOf(s, i, v) == Backing(s.spaces[i], v)
  }

  /** Everything but the coremap's own claim on `hole`, which no page table may use. */
  ghost predicate InvBut(s: State, hole: nat) {
    && Shape(s)
    && NoDuplicates(s.tlb)
    && (forall j :: 0 <= j < TLB_SIZE ==> SlotOk(s, j))
    && (forall f :: 0 <= f < NUM_PHYS_PAGES && f != hole ==> FrameOk(s, f))
    && (forall i, v :: 0 <= i < |s.spaces| && 0 <= v < NumPages(s, i) ==>
          PteOk(s, i, v) && CleanOk(s, i, v))
    && (forall i, v :: 0 <= i < |s.spaces| && 0 <= v < NumPages(s, i) && s.spaces[i].pageTable[v].valid ==>
          s.spaces[i].pageTable[v].physicalPage != hole)
  }

  /** The invariant; NUM_PHYS_PAGES is no frame, so nothing is excepted. */
  ghost predicate Inv(s: State) {
    InvBut(s, NUM_PHYS_PAGES)
  }

  /** The two states show every address space the same flat memory. */
  ghost predicate SameViews(s: State, s': State) {
    && Shape(s) && Shape(s')
    && |s.spaces| == |s'.spaces|
    && (forall i :: 0 <= i < |s.spaces| ==> NumPages(s, i) == NumPages(s', i))
    && (forall i, v :: 0 <= i < |s.spaces| && 0 <= v < NumPages(s, i) ==> PageOf(s, i, v) == PageOf(s', i, v))
  }

  lemma SameViewsMeansSameMemory(s: State, s': State)
    requires SameViews(s, s')
    ensures forall i :: 0 <= i < |s.spaces| ==> View(s, i) == View(s', i)
  {
    forall i | 0 <= i < |s.spaces|
      ensures View(s, i) == View(s', i)
    {
      assert NumPages(s, i) == NumPages(s', i);
      forall a | 0 <= a < |View(s, i)|
        ensures View(s, i)[a] == View(s', i)[a]
      {
        assert PageOf(s, i, a / PAGE_SIZE) == PageOf(s', i, a / PAGE_SIZE);
      }
    }
  }

  /** Under the invariant the slot that maps `v` is the only one. */
  lemma SlotIsFound(s: State, j: nat)
    requires Shape(s) && NoDuplicates(s.tlb) && j < TLB_SIZE && s.tlb[j].valid
    ensures TlbFind(s.tlb, s.tlb[j].virtualPage) == j
  {
  }

  /** A cached page is writable and in a real frame. */
  lemma CachedPage(s: State, j: nat)
    requires Inv(s) && j < TLB_SIZE && s.tlb[j].valid
    ensures s.tlb[j].virtualPage < NumPages(s, s.cur)
    ensures !s.tlb[j].readOnly && s.tlb[j].physicalPage < NUM_PHYS_PAGES
    ensures PageOf(s, s.cur, s.tlb[j].virtualPage) == Frame(s.memory, s.tlb[j].physicalPage)
  {
    assert SlotOk(s, j);
    assert PteOk(s, s.cur, s.tlb[j].virtualPage);
  }

  /** Under the invariant the TLB slot for a frame is the slot for the page in it. */
  lemma FrameSlot(s: State, f: nat)
    requires Inv(s) && f < NUM_PHYS_PAGES && s.used[f] && s.owner[f] == s.cur
    ensures TlbFindFrame(s.tlb, f) == TlbFind(s.tlb, s.vpns[f])
  {
    var v := s.vpns[f];
    assert FrameOk(s, f);
    forall j | 0 <= j < TLB_SIZE && s.tlb[j].valid
      ensures s.tlb[j].physicalPage == f <==> s.tlb[j].virtualPage == v
    {
      assert SlotOk(s, j);
      assert PteOk(s, s.cur, s.tlb[j].virtualPage);
    }
  }

  // ---------- eviction ----------

  lemma EvictPte(s: State, f: nat)
    requires Inv(s) && f < NUM_PHYS_PAGES && s.used[f] && s.owner[f] == s.cur
    ensures CanEvict(s, f)
    ensures Evict(s, f).spaces[s.cur].pageTable[s.vpns[f]].valid == false
    ensures PteOk(Evict(s, f), s.cur, s.vpns[f])
  {
    assert FrameOk(s, f);
    var j := TlbFindFrame(s.tlb, f);
    if j < TLB_SIZE {
      assert SlotOk(s, j);
      FrameSlot(s, f);
    }
    assert PteOk(s, s.cur, s.vpns[f]);
  }

  /** What an eviction by the owner leaves alone. */
  lemma EvictFrameRule(s: State, f: nat)
    requires Inv(s) && f < NUM_PHYS_PAGES && s.used[f] && s.owner[f] == s.cur
    ensures CanEvict(s, f)
    ensures
      var s', v, j := Evict(s, f), s.vpns[f], TlbFind(s.tlb, s.vpns[f]);
      && s'.cur == s.cur && s'.memory == s.memory && s'.used == s.used && s'.owner == s.owner
      && s'.vpns == s.vpns && s'.hand == s.hand && s'.slot == s.slot
      && |s'.spaces| == |s.spaces|
      && NumPages(s', s.cur) == NumPages(s, s.cur)
      && (forall i :: 0 <= i < |s.spaces| && i != s.cur ==> s'.spaces[i] == s.spaces[i])
      && (forall u :: 0 <= u < NumPages(s, s.cur) && u != v ==>
            && s'.spaces[s.cur].pageTable[u] == s.spaces[s.cur].pageTable[u]
            && s'.spaces[s.cur].swapMap[u] == s.spaces[s.cur].swapMap[u])
      && s'.spaces[s.cur].exe == s.spaces[s.cur].exe
      && s'.tlb == if j < TLB_SIZE then s.tlb[j := s.tlb[j].(valid := false)] else s.tlb
  {
    assert FrameOk(s, f);
    FrameSlot(s, f);
  }

  /** Exactly the dirty pages are written out. */
  lemma EvictSwap(s: State, f: nat)
    requires Inv(s) && f < NUM_PHYS_PAGES && s.used[f] && s.owner[f] == s.cur
    ensures CanEvict(s, f)
    ensures
      var v, before, after := s.vpns[f], s.spaces[s.cur], Evict(s, f).spaces[s.cur];
      if Dirty(s, s.cur, v) then
        && after.swap == FileWriteAt(before.swap, v * PAGE_SIZE, Frame(s.memory, f))
        && after.swapMap == before.swapMap[v := true]
      else after.swap == before.swap && after.swapMap == before.swapMap
  {
    assert FrameOk(s, f);
    FrameSlot(s, f);
  }

  /** The evicted page goes to its backing store unchanged. */
  lemma EvictedPage(s: State, f: nat)
    requires Inv(s) && f < NUM_PHYS_PAGES && s.used[f] && s.owner[f] == s.cur
    ensures CanEvict(s, f)
    ensures Backing(Evict(s, f).spaces[s.cur], s.vpns[f]) == Frame(s.memory, f)
    ensures PageOf(s, s.cur, s.vpns[f]) == Frame(s.memory, f)
  {
    assert FrameOk(s, f);
    EvictSwap(s, f);
    EvictFrameRule(s, f);
    var v := s.vpns[f];
    assert CleanOk(s, s.cur, v);
    ReadBack(s.spaces[s.cur].swap, v * PAGE_SIZE, Frame(s.memory, f));
  }

  /** Swapping one page out leaves the backing store of every other page alone. */
  lemma EvictOtherBacking(s: State, f: nat, u: nat)
    requires Inv(s) && f < NUM_PHYS_PAGES && s.used[f] && s.owner[f] == s.cur
    requires u < NumPages(s, s.cur) && u != s.vpns[f]
    ensures CanEvict(s, f)
    ensures Backing(Evict(s, f).spaces[s.cur], u) == Backing(s.spaces[s.cur], u)
    ensures |Evict(s, f).spaces[s.cur].swap| >= |s.spaces[s.cur].swap|
  {
    EvictSwap(s, f);
    EvictFrameRule(s, f);
    assert PteOk(s, s.cur, u);
    var before := s.spaces[s.cur];
    if before.swapMap[u] {
      ReadElsewhere(before.swap, s.vpns[f] * PAGE_SIZE, Frame(s.memory, f), u * PAGE_SIZE, PAGE_SIZE);
    }
  }

  lemma EvictKeepsPages(s: State, f: nat)
    requires Inv(s) && f < NUM_PHYS_PAGES && s.used[f] && s.owner[f] == s.cur
    ensures CanEvict(s, f) && SameViews(s, Evict(s, f))
  {
    EvictFrameRule(s, f);
    EvictPte(s, f);
    EvictedPage(s, f);
    var s' := Evict(s, f);
    forall i, v | 0 <= i < |s.spaces| && 0 <= v < NumPages(s, i)
      ensures PageOf(s, i, v) == PageOf(s', i, v)
    {
      if i == s.cur && v != s.vpns[f] {
        EvictOtherBacking(s, f, v);
      }
    }
  }

  lemma EvictKeepsClean(s: State, f: nat, i: nat, v: nat)
    requires Inv(s) && f < NUM_PHYS_PAGES && s.used[f] && s.owner[f] == s.cur
    requires i < |s.spaces| && v < NumPages(s, i)
    ensures CanEvict(s, f)
    ensures |Evict(s, f).spaces| == |s.spaces| && NumPages(Evict(s, f), i) == NumPages(s, i)
    ensures PteOk(Evict(s, f), i, v) && CleanOk(Evict(s, f), i, v)
    ensures Evict(s, f).spaces[i].pageTable[v].valid ==> Evict(s, f).spaces[i].pageTable[v].physicalPage != f
  {
    EvictFrameRule(s, f);
    EvictPte(s, f);
    EvictKeepsPages(s, f);
    var s' := Evict(s, f);
    assert PageOf(s, i, v) == PageOf(s', i, v);
    assert PteOk(s, i, v) && CleanOk(s, i, v);
    if i == s.cur {
      if v == s.vpns[f] {
        EvictedPage(s, f);
      } else {
        EvictOtherBacking(s, f, v);
        OtherSlot(s, s', f, v);
      }
    }
  }

  /** Invalidating the victim's slot does not hide the slot of another page. */
  lemma OtherSlot(s: State, s': State, f: nat, u: nat)
    requires Inv(s) && f < NUM_PHYS_PAGES && s.used[f] && s.owner[f] == s.cur
    requires u != s.vpns[f] && CanEvict(s, f) && s' == Evict(s, f)
    ensures TlbFind(s'.tlb, u) == TlbFind(s.tlb, u)
    ensures TlbFind(s.tlb, u) < TLB_SIZE ==> s'.tlb[TlbFind(s.tlb, u)] == s.tlb[TlbFind(s.tlb, u)]
  {
    EvictFrameRule(s, f);
    SameTagsSameSlot(s'.tlb, s.tlb, u);
  }

  /** Eviction by the owner: every page keeps its contents, and only `f` is left unaccounted for. */
  /** The dirty bit that an eviction looks at: that of the first TLB slot for the frame, else of the page table. */
  ghost predicate NeedsWriteBack(s: State, f: nat)
    requires CanEvict(s, f)
  {
    || (exists j :: 0 <= j < TLB_SIZE && FirstOnto(s.tlb, f, j) && s.tlb[j].dirty)
    || ((forall j :: 0 <= j < TLB_SIZE ==> !MapsOnto(s.tlb[j], f)) && s.spaces[s.cur].pageTable[s.vpns[f]].dirty)
  }

  ghost predicate FirstOnto(tlb: seq<Entry>, f: nat, j: nat)
    requires j < |tlb|
  {
    MapsOnto(tlb[j], f) && forall k :: 0 <= k < j ==> !MapsOnto(tlb[k], f)
  }

  lemma ReclaimSeesDirty(s: State, f: nat)
    requires CanEvict(s, f)
    ensures
      var r := Reclaim(s, f);
      && |r.spaces| == |s.spaces| && r.(spaces := s.spaces, tlb := s.tlb) == s
      && (r.spaces[s.cur].pageTable[s.vpns[f]].dirty <==> NeedsWriteBack(s, f))
      && forall i :: 0 <= i < |s.spaces| ==> r.spaces[i] == s.spaces[i].(pageTable := r.spaces[i].pageTable)
  {
    var j := TlbFindFrame(s.tlb, f);
    if j < TLB_SIZE {
      assert FirstOnto(s.tlb, f, j);
    }
  }

  /** A dirty frame goes to its page in the owner's swap file, else nothing is written; the entry is dropped. */
  lemma EvictWritesIfDirty(s: State, f: nat)
    requires CanEvict(s, f)
    ensures
      var s', v, o := Evict(s, f), s.vpns[f], s.owner[f];
      && |s'.spaces| == |s.spaces| && s'.memory == s.memory
      && (NeedsWriteBack(s, f) ==>
           && s'.spaces[o].swap == FileWriteAt(s.spaces[o].swap, v * PAGE_SIZE, Frame(s.memory, f))
           && s'.spaces[o].swapMap == s.spaces[o].swapMap[v := true])
      && (forall i :: 0 <= i < |s.spaces| && !(i == o && NeedsWriteBack(s, f)) ==>
            s'.spaces[i].swap == s.spaces[i].swap && s'.spaces[i].swapMap == s.spaces[i].swapMap)
      && (var e := s'.spaces[s.cur].pageTable[v]; !e.valid && !e.dirty)
  {
    hide Reclaim, NeedsWriteBack, FileWriteAt, Frame;
    ReclaimSeesDirty(s, f);
  }

  lemma EvictKeepsInvariant(s: State, f: nat)
    requires Inv(s) && f < NUM_PHYS_PAGES && s.used[f] && s.owner[f] == s.cur
    ensures CanEvict(s, f) && InvBut(Evict(s, f), f) && SameViews(s, Evict(s, f))
    ensures Evict(s, f).cur == s.cur
  {
    EvictFrameRule(s, f);
    EvictKeepsPages(s, f);
    var s' := Evict(s, f);
    forall i, v | 0 <= i < |s'.spaces| && 0 <= v < NumPages(s', i)
      ensures PteOk(s', i, v) && CleanOk(s', i, v)
      ensures s'.spaces[i].pageTable[v].valid ==> s'.spaces[i].pageTable[v].physicalPage != f
    {
      EvictKeepsClean(s, f, i, v);
    }
    forall j | 0 <= j < TLB_SIZE
      ensures SlotOk(s', j)
    {
      assert SlotOk(s, j);
      EvictedSlot(s, f, j);
    }
    forall g | 0 <= g < NUM_PHYS_PAGES && g != f
      ensures FrameOk(s', g)
    {
      assert FrameOk(s, g);
      assert FrameOk(s, f);
    }
  }

  lemma EvictedSlot(s: State, f: nat, j: nat)
    requires Inv(s) && f < NUM_PHYS_PAGES && s.used[f] && s.owner[f] == s.cur && j < TLB_SIZE
    ensures CanEvict(s, f)
    ensures Evict(s, f).tlb[j].valid ==> s.tlb[j] == Evict(s, f).tlb[j] && s.tlb[j].virtualPage != s.vpns[f]
  {
    EvictFrameRule(s, f);
    if s.tlb[j].valid {
      SlotIsFound(s, j);
    }
  }

  // ---------- loading a page into a frame ----------

  /** `LoadPage` once it has a frame for the page. */
  function LoadInto(s: State, f: nat, v: nat): State
    requires Shape(s) && f < NUM_PHYS_PAGES && v < NumPages(s, s.cur)
  {
    Fill(Claim(s, f, v), f, v)
  }

  /** A frame that the coremap calls free is in no page table. */
  lemma FreeFrameIsUnmapped(s: State, f: nat)
    requires Inv(s) && f < NUM_PHYS_PAGES && !s.used[f]
    ensures InvBut(s, f)
  {
    forall i, v | 0 <= i < |s.spaces| && 0 <= v < NumPages(s, i) && s.spaces[i].pageTable[v].valid
      ensures s.spaces[i].pageTable[v].physicalPage != f
    {
      assert PteOk(s, i, v);
    }
  }

  lemma LoadKeepsPages(s: State, f: nat, v: nat)
    requires InvBut(s, f) && f < NUM_PHYS_PAGES && v < NumPages(s, s.cur)
    requires !s.spaces[s.cur].pageTable[v].valid
    ensures SameViews(s, LoadInto(s, f, v))
  {
    var s' := LoadInto(s, f, v);
    var page := Backing(s.spaces[s.cur], v);
    forall i, u | 0 <= i < |s.spaces| && 0 <= u < NumPages(s, i)
      ensures PageOf(s, i, u) == PageOf(s', i, u)
    {
      assert PteOk(s, i, u);
      var e := s.spaces[i].pageTable[u];
      FrameOfPut(s.memory, f, page, if e.valid then e.physicalPage else f);
    }
  }

  lemma LoadKeepsPage(s: State, f: nat, v: nat, i: nat, u: nat)
    requires InvBut(s, f) && f < NUM_PHYS_PAGES && v < NumPages(s, s.cur)
    requires !s.spaces[s.cur].pageTable[v].valid
    requires i < |s.spaces| && u < NumPages(s, i) && PageOf(s, i, u) == PageOf(LoadInto(s, f, v), i, u)
    ensures PteOk(LoadInto(s, f, v), i, u) && CleanOk(LoadInto(s, f, v), i, u)
    ensures
      var e := LoadInto(s, f, v).spaces[i].pageTable[u];
      e.valid ==> e.physicalPage != NUM_PHYS_PAGES
  {
    var s' := LoadInto(s, f, v);
    assert PteOk(s, i, u) && CleanOk(s, i, u);
    assert Backing(s.spaces[i], u) == Backing(s'.spaces[i], u);
  }

  /** Filling a frame with a page's backing store maps the page and changes no memory. */
  lemma LoadKeepsInvariant(s: State, f: nat, v: nat)
    requires InvBut(s, f) && f < NUM_PHYS_PAGES && v < NumPages(s, s.cur)
    requires !s.spaces[s.cur].pageTable[v].valid
    ensures Inv(LoadInto(s, f, v)) && SameViews(s, LoadInto(s, f, v))
    ensures LoadInto(s, f, v).spaces[s.cur].pageTable[v].valid
  {
    LoadKeepsPages(s, f, v);
    var s' := LoadInto(s, f, v);
    forall i, u | 0 <= i < |s'.spaces| && 0 <= u < NumPages(s', i)
      ensures PteOk(s', i, u) && CleanOk(s', i, u)
      ensures s'.spaces[i].pageTable[u].valid ==> s'.spaces[i].pageTable[u].physicalPage != NUM_PHYS_PAGES
    {
      LoadKeepsPage(s, f, v, i, u);
    }
    hide PteOk, CleanOk;
    forall j | 0 <= j < TLB_SIZE
      ensures SlotOk(s', j)
    {
      assert SlotOk(s, j);
    }
    forall g | 0 <= g < NUM_PHYS_PAGES
      ensures FrameOk(s', g)
    {
      if g != f {
        assert FrameOk(s, g);
      }
    }
  }

  /** A page that is in no frame is in no TLB slot either. */
  lemma AbsentPageIsUncached(s: State, hole: nat, v: nat)
    requires InvBut(s, hole) && v < NumPages(s, s.cur) && !s.spaces[s.cur].pageTable[v].valid
    ensures TlbFind(s.tlb, v) == TLB_SIZE
  {
    var j := TlbFind(s.tlb, v);
    assert j < TLB_SIZE ==> SlotOk(s, j);
  }

  // ---------- replacement across address spaces ----------

  /**
   Taking a frame from a victim and loading page `v` into it keeps the invariant
   exactly when the victim belongs to the running space: the eviction edits the
   running page table and never the owner's.
   */
  lemma ReplacementNeedsOwnFrame(s: State, f: nat, v: nat)
    requires Inv(s) && CanEvict(s, f) && v < NumPages(s, s.cur) && !s.spaces[s.cur].pageTable[v].valid
    ensures NumPages(Evict(s, f), s.cur) == NumPages(s, s.cur) && Evict(s, f).cur == s.cur
    ensures Inv(LoadInto(Evict(s, f), f, v)) <==> s.owner[f] == s.cur
    ensures s.owner[f] == s.cur ==> SameViews(s, LoadInto(Evict(s, f), f, v))
  {
    var e := Evict(s, f);
    if s.owner[f] == s.cur {
      EvictFrameRule(s, f);
      EvictPte(s, f);
      EvictKeepsInvariant(s, f);
      LoadKeepsInvariant(e, f, v);
      SameViewsCompose(s, e, LoadInto(e, f, v));
    } else {
      ForeignReplacement(s, f, v);
    }
  }

  lemma SameViewsCompose(a: State, b: State, c: State)
    requires SameViews(a, b) && SameViews(b, c)
    ensures SameViews(a, c)
  {
    forall i, v | 0 <= i < |a.spaces| && 0 <= v < NumPages(a, i)
      ensures PageOf(a, i, v) == PageOf(c, i, v)
    {
      assert PageOf(a, i, v) == PageOf(b, i, v);
      assert NumPages(b, i) == NumPages(c, i);
      assert PageOf(b, i, v) == PageOf(c, i, v);
    }
  }

  lemma ForeignReplacement(s: State, f: nat, v: nat)
    requires Inv(s) && CanEvict(s, f) && v < NumPages(s, s.cur) && s.owner[f] != s.cur
    ensures NumPages(Evict(s, f), s.cur) == NumPages(s, s.cur) && Evict(s, f).cur == s.cur
    ensures !Inv(LoadInto(Evict(s, f), f, v))
  {
    assert FrameOk(s, f);
    var e := Evict(s, f);
    var o, u := s.owner[f], s.vpns[f];
    assert e.spaces[o].pageTable == s.spaces[o].pageTable;
    var s' := LoadInto(e, f, v);
    assert s'.spaces[o].pageTable == s.spaces[o].pageTable;
    assert !PteOk(s', o, u);
  }

  // ---------- MMU accesses ----------

  /** Lookup depends on tags and valid bits only. */
  lemma SameTagsSameSlot(tlb: seq<Entry>, tlb': seq<Entry>, v: nat)
    requires |tlb| == |tlb'|
    requires forall k :: 0 <= k < |tlb| ==> Maps(tlb[k], v) == Maps(tlb'[k], v)
    ensures TlbFind(tlb, v) == TlbFind(tlb', v)
  {
    var a, b := TlbFind(tlb, v), TlbFind(tlb', v);
    if a < |tlb| {
      assert Maps(tlb'[a], v);
    }
  }

  lemma TouchKeepsSlots(s: State, j: nat, writing: bool, v: nat)
    requires Shape(s) && j < TLB_SIZE
    ensures TlbFind(Touch(s, j, writing).tlb, v) == TlbFind(s.tlb, v)
  {
    SameTagsSameSlot(Touch(s, j, writing).tlb, s.tlb, v);
  }

  /** A read hit changes flags only. */
  lemma ReadKeepsInvariant(s: State, j: nat)
    requires Inv(s) && j < TLB_SIZE && s.tlb[j].valid
    ensures Inv(Touch(s, j, false)) && SameViews(s, Touch(s, j, false))
  {
    var s' := Touch(s, j, false);
    forall i, v | 0 <= i < |s'.spaces| && 0 <= v < NumPages(s', i)
      ensures PteOk(s', i, v) && CleanOk(s', i, v)
    {
      assert PteOk(s, i, v) && CleanOk(s, i, v);
      TouchKeepsSlots(s, j, false, v);
    }
    forall k | 0 <= k < TLB_SIZE ensures SlotOk(s', k) { assert SlotOk(s, k); }
    forall g | 0 <= g < NUM_PHYS_PAGES ensures FrameOk(s', g) { assert FrameOk(s, g); }
  }

  /** A write hit changes the one page it hits, by exactly the bytes written. */
  lemma WriteChangesOnePage(s: State, j: nat, o: nat, data: seq<byte>, i: nat, v: nat)
    requires Inv(s) && j < TLB_SIZE && s.tlb[j].valid && o + |data| <= PAGE_SIZE
    requires i < |s.spaces| && v < NumPages(s, i)
    ensures s.tlb[j].physicalPage < NUM_PHYS_PAGES && Shape(WriteThrough(s, j, o, data))
    ensures PageOf(WriteThrough(s, j, o, data), i, v)
         == if i == s.cur && v == s.tlb[j].virtualPage then Splice(PageOf(s, i, v), o, data) else PageOf(s, i, v)
  {
    assert SlotOk(s, j);
    assert PteOk(s, s.cur, s.tlb[j].virtualPage) && PteOk(s, i, v);
    var e := s.spaces[i].pageTable[v];
    var s' := WriteThrough(s, j, o, data);
    assert s'.spaces == s.spaces && Shape(s');
    assert PageOf(s', i, v) == if e.valid then Frame(s'.memory, e.physicalPage) else PageOf(s, i, v);
    assert i == s.cur && v == s.tlb[j].virtualPage <==> e.valid && e.physicalPage == s.tlb[j].physicalPage;
    if e.valid {
      assert PageOf(s, i, v) == Frame(s.memory, e.physicalPage);
      hide Splice, PageOf, Frame, Inv;
      FrameOfSplice(s.memory, s.tlb[j].physicalPage, o, data, e.physicalPage);
    }
  }

  lemma WriteKeepsPage(s: State, j: nat, o: nat, data: seq<byte>, i: nat, v: nat)
    requires Inv(s) && j < TLB_SIZE && s.tlb[j].valid && o + |data| <= PAGE_SIZE
    requires i < |s.spaces| && v < NumPages(s, i)
    ensures s.tlb[j].physicalPage < NUM_PHYS_PAGES && Shape(WriteThrough(s, j, o, data))
    ensures PteOk(WriteThrough(s, j, o, data), i, v) && CleanOk(WriteThrough(s, j, o, data), i, v)
  {
    assert SlotOk(s, j);
    assert PteOk(s, s.cur, s.tlb[j].virtualPage);
    assert PteOk(s, i, v) && CleanOk(s, i, v);
    WriteChangesOnePage(s, j, o, data, i, v);
    hide Splice, PageOf, Backing;
    TouchKeepsSlots(s, j, true, v);
    SlotIsFound(s, j);
  }

  /** What a write hit leaves alone. */
  lemma WriteKeepsTables(s: State, j: nat, o: nat, data: seq<byte>)
    requires Inv(s) && j < TLB_SIZE && s.tlb[j].valid && o + |data| <= PAGE_SIZE
    ensures s.tlb[j].physicalPage < NUM_PHYS_PAGES
    ensures
      var s' := WriteThrough(s, j, o, data);
      && Shape(s') && s'.spaces == s.spaces && NoDuplicates(s'.tlb)
      && (forall k :: 0 <= k < TLB_SIZE ==> SlotOk(s', k)) && (forall g :: 0 <= g < NUM_PHYS_PAGES ==> FrameOk(s', g))
  {
    assert SlotOk(s, j);
    assert PteOk(s, s.cur, s.tlb[j].virtualPage);
    hide PteOk, CleanOk, PageOf, Backing, TlbFind;
    var s' := WriteThrough(s, j, o, data);
    assert s'.spaces == s.spaces && s'.used == s.used && s'.owner == s.owner && s'.vpns == s.vpns;
    forall k | 0 <= k < TLB_SIZE ensures SlotOk(s', k) { assert SlotOk(s, k); }
    forall g | 0 <= g < NUM_PHYS_PAGES ensures FrameOk(s', g) { assert FrameOk(s, g); }
  }

  lemma WriteKeepsInvariant(s: State, j: nat, o: nat, data: seq<byte>)
    requires Inv(s) && j < TLB_SIZE && s.tlb[j].valid && o + |data| <= PAGE_SIZE
    ensures s.tlb[j].physicalPage < NUM_PHYS_PAGES && Inv(WriteThrough(s, j, o, data))
  {
    WriteKeepsTables(s, j, o, data);
    hide PteOk, CleanOk, SlotOk, FrameOk, NoDuplicates, WriteThrough, Shape, InvBut;
    var s' := WriteThrough(s, j, o, data);
    forall i, v | 0 <= i < |s'.spaces| && 0 <= v < NumPages(s', i)
      ensures PteOk(s', i, v) && CleanOk(s', i, v)
    {
      WriteKeepsPage(s, j, o, data, i, v);
    }
    AllIsInv(s');
  }

  lemma AllIsInv(s: State)
    requires Shape(s) && NoDuplicates(s.tlb)
    requires forall k :: 0 <= k < TLB_SIZE ==> SlotOk(s, k)
    requires forall g :: 0 <= g < NUM_PHYS_PAGES ==> FrameOk(s, g)
    requires forall i, v :: 0 <= i < |s.spaces| && 0 <= v < NumPages(s, i) ==> PteOk(s, i, v) && CleanOk(s, i, v)
    ensures Inv(s)
  {
    forall i, v | 0 <= i < |s.spaces| && 0 <= v < NumPages(s, i) && s.spaces[i].pageTable[v].valid
      ensures s.spaces[i].pageTable[v].physicalPage != NUM_PHYS_PAGES
    {
      assert PteOk(s, i, v);
    }
  }

  lemma SpliceAt(m: seq<byte>, a: nat, data: seq<byte>, b: nat)
    requires a + |data| <= |m| && b < |m|
    ensures Splice(m, a, data)[b] == if a <= b < a + |data| then data[b - a] else m[b]
  {
    if a <= b < a + |data| {
      assert Splice(m, a, data)[a..a + |data|][b - a] == data[b - a];
    }
  }

  lemma WriteIsSpliceAt(s: State, j: nat, o: nat, data: seq<byte>, i: nat, b: nat)
    requires Inv(s) && j < TLB_SIZE && s.tlb[j].valid && o + |data| <= PAGE_SIZE
    requires i < |s.spaces| && b < |View(s, i)|
    ensures s.tlb[j].physicalPage < NUM_PHYS_PAGES && Shape(WriteThrough(s, j, o, data))
    ensures
      var a := s.tlb[j].virtualPage * PAGE_SIZE + o;
      View(WriteThrough(s, j, o, data), i)[b]
        == if i == s.cur && a <= b < a + |data| then data[b - a] else View(s, i)[b]
  {
    WriteChangesOnePage(s, j, o, data, i, b / PAGE_SIZE);
    var s' := WriteThrough(s, j, o, data);
    assert NumPages(s', i) == NumPages(s, i);
    ViewByte(s, i, b);
    ViewByte(s', i, b);
    hide Splice, PageOf, Inv, View, WriteThrough;
    SpliceAt(PageOf(s, i, b / PAGE_SIZE), o, data, b % PAGE_SIZE);
    OffsetInPage(b, s.tlb[j].virtualPage, o, |data|);
  }

  lemma ViewByte(s: State, i: nat, b: nat)
    requires Shape(s) && i < |s.spaces| && b < NumPages(s, i) * PAGE_SIZE
    ensures b / PAGE_SIZE < NumPages(s, i) && View(s, i)[b] == PageOf(s, i, b / PAGE_SIZE)[b % PAGE_SIZE]
  {
  }

  lemma OffsetInPage(b: nat, v: nat, o: nat, n: nat)
    requires o + n <= PAGE_SIZE
    ensures v * PAGE_SIZE + o <= b < v * PAGE_SIZE + o + n <==> b / PAGE_SIZE == v && o <= b % PAGE_SIZE < o + n
    ensures b / PAGE_SIZE == v ==> b - (v * PAGE_SIZE + o) == b % PAGE_SIZE - o
  {
  }

  /** Seen from outside, a write hit is a splice into the running flat memory. */
  lemma WriteIsSplice(s: State, j: nat, o: nat, data: seq<byte>)
    requires Inv(s) && j < TLB_SIZE && s.tlb[j].valid && o + |data| <= PAGE_SIZE
    ensures s.tlb[j].physicalPage < NUM_PHYS_PAGES && Shape(WriteThrough(s, j, o, data))
    ensures s.tlb[j].virtualPage * PAGE_SIZE + o + |data| <= |View(s, s.cur)|
    ensures
      var a, s' := s.tlb[j].virtualPage * PAGE_SIZE + o, WriteThrough(s, j, o, data);
      && View(s', s.cur) == Splice(View(s, s.cur), a, data)
      && forall i :: 0 <= i < |s.spaces| && i != s.cur ==> View(s', i) == View(s, i)
  {
    hide PteOk, CleanOk, FrameOk, NoDuplicates, PageOf, TlbFind;
    WriteKeepsTables(s, j, o, data);
    assert SlotOk(s, j);
    var a, s' := s.tlb[j].virtualPage * PAGE_SIZE + o, WriteThrough(s, j, o, data);
    forall b | 0 <= b < |View(s, s.cur)|
      ensures View(s', s.cur)[b] == Splice(View(s, s.cur), a, data)[b]
    {
      WriteIsSpliceAt(s, j, o, data, s.cur, b);
      SpliceAt(View(s, s.cur), a, data, b);
    }
    forall i | 0 <= i < |s.spaces| && i != s.cur
      ensures View(s', i) == View(s, i)
    {
      forall b | 0 <= b < |View(s, i)|
        ensures View(s', i)[b] == View(s, i)[b]
      {
        WriteIsSpliceAt(s, j, o, data, i, b);
      }
    }
  }

  // ---------- TLB refill and context switch ----------

  /** One valid slot goes back to the page table, flags and all, and is dropped. */
  function DropSlot(s: State, j: nat, e: Entry): State
    requires Shape(s) && j < TLB_SIZE && s.tlb[j].virtualPage < NumPages(s, s.cur)
  {
    SetPte(s, s.tlb[j].virtualPage, e).(tlb := s.tlb[j := s.tlb[j].(valid := false)])
  }

  /** Looking up a page that slot `j` does not map, before and after `j` is dropped. */
  lemma DroppedSlot(tlb: seq<Entry>, j: nat, e: Entry, v: nat)
    requires j < |tlb| && !e.valid && !Maps(tlb[j], v)
    ensures TlbFind(tlb[j := e], v) == TlbFind(tlb, v)
  {
    SameTagsSameSlot(tlb[j := e], tlb, v);
  }

  /** `e` is the slot's entry, flags other than dirty apart. */
  ghost predicate SavedEntry(t: Entry, e: Entry) {
    && t.valid && e.valid && !e.readOnly
    && e.virtualPage == t.virtualPage && e.physicalPage == t.physicalPage && e.dirty == t.dirty
  }

  lemma DroppedPageIsUncached(s: State, j: nat, e: Entry)
    requires Inv(s) && j < TLB_SIZE && SavedEntry(s.tlb[j], e)
    ensures SlotOk(s, j) && TlbFind(DropSlot(s, j, e).tlb, s.tlb[j].virtualPage) == TLB_SIZE
  {
    assert SlotOk(s, j);
    var s' := DropSlot(s, j, e);
    forall k | 0 <= k < TLB_SIZE && s'.tlb[k].valid
      ensures s'.tlb[k].virtualPage != s.tlb[j].virtualPage
    {
      SlotIsFound(s, j);
      SlotIsFound(s, k);
    }
  }

  lemma DropKeepsPage(s: State, j: nat, e: Entry, i: nat, v: nat)
    requires Inv(s) && j < TLB_SIZE && SavedEntry(s.tlb[j], e)
    requires i < |s.spaces| && v < NumPages(s, i)
    ensures SlotOk(s, j) && Shape(DropSlot(s, j, e)) && NumPages(DropSlot(s, j, e), i) == NumPages(s, i)
    ensures PteOk(DropSlot(s, j, e), i, v) && CleanOk(DropSlot(s, j, e), i, v)
    ensures PageOf(DropSlot(s, j, e), i, v) == PageOf(s, i, v)
  {
    hide NoDuplicates, FrameOk, TlbFind;
    assert SlotOk(s, j);
    assert PteOk(s, i, v) && CleanOk(s, i, v);
    var u := s.tlb[j].virtualPage;
    if i == s.cur {
      if v == u {
        SlotIsFound(s, j);
        DroppedPageIsUncached(s, j, e);
      } else {
        DroppedSlot(s.tlb, j, s.tlb[j].(valid := false), v);
      }
    }
  }

  /** Dropping slot `j` is harmless if its page-table entry takes over its dirty bit. */
  lemma DropKeepsInvariant(s: State, j: nat, e: Entry)
    requires Inv(s) && j < TLB_SIZE && SavedEntry(s.tlb[j], e)
    ensures SlotOk(s, j) && Inv(DropSlot(s, j, e)) && SameViews(s, DropSlot(s, j, e))
  {
    assert SlotOk(s, j);
    var s' := DropSlot(s, j, e);
    forall i, v | 0 <= i < |s'.spaces| && 0 <= v < NumPages(s', i)
      ensures PteOk(s', i, v) && CleanOk(s', i, v) && PageOf(s, i, v) == PageOf(s', i, v)
      ensures s'.spaces[i].pageTable[v].valid ==> s'.spaces[i].pageTable[v].physicalPage != NUM_PHYS_PAGES
    {
      DropKeepsPage(s, j, e, i, v);
    }
    forall k | 0 <= k < TLB_SIZE ensures SlotOk(s', k) { assert SlotOk(s, k); }
    forall g | 0 <= g < NUM_PHYS_PAGES ensures FrameOk(s', g) { assert FrameOk(s, g); }
  }

  /** The use and dirty bits of the first `n` slots are in the running page table; nothing else in it has changed. */
  ghost predicate BitsSaved(s: State, s': State, n: nat)
    requires n <= |s.tlb|
  {
    && s.cur == s'.cur < |s.spaces| == |s'.spaces|
    && var table, table' := s.spaces[s.cur].pageTable, s'.spaces[s.cur].pageTable;
       && |table| == |table'|
       && (forall j :: 0 <= j < n && s.tlb[j].valid && s.tlb[j].virtualPage < |table| ==>
             var v := s.tlb[j].virtualPage;
             table'[v] == table[v].(use := s.tlb[j].use, dirty := s.tlb[j].dirty))
       && (forall v :: 0 <= v < |table| && (forall j :: 0 <= j < n ==> !Maps(s.tlb[j], v)) ==> table'[v] == table[v])
  }

  lemma SavesOneMore(s: State, t: State, i: nat)
    requires Shape(s) && Shape(t) && i < TLB_SIZE && NoDuplicates(s.tlb) && BitsSaved(s, t, i) && t.tlb[i] == s.tlb[i]
    requires t.tlb[i].valid ==> t.tlb[i].virtualPage < |t.spaces[t.cur].pageTable|
    ensures BitsSaved(s, SaveSlot(t, i), i + 1)
  {
    var t' := SaveSlot(t, i);
    var v := s.tlb[i].virtualPage;
    if s.tlb[i].valid {
      assert forall j :: 0 <= j < i ==> !Maps(s.tlb[j], v);
    }
  }

  lemma SaveSlotKeepsInvariant(s: State, j: nat)
    requires Inv(s) && j < TLB_SIZE
    ensures s.tlb[j].valid ==> s.tlb[j].virtualPage < NumPages(s, s.cur)
    ensures Inv(SaveSlot(s, j)) && SameViews(s, SaveSlot(s, j))
  {
    assert SlotOk(s, j);
    if s.tlb[j].valid {
      var v := s.tlb[j].virtualPage;
      assert PteOk(s, s.cur, v);
      DropKeepsInvariant(s, j, s.spaces[s.cur].pageTable[v].(dirty := s.tlb[j].dirty, use := s.tlb[j].use));
    }
  }

  predicate TlbEmpty(s: State) {
    forall j :: 0 <= j < |s.tlb| ==> !s.tlb[j].valid
  }

  /** With the TLB saved and empty, any space may run next. */
  lemma SwitchKeepsInvariant(s: State, next: nat)
    requires Inv(s) && TlbEmpty(s) && next < |s.spaces|
    ensures Inv(s.(cur := next)) && SameViews(s, s.(cur := next))
  {
    var s' := s.(cur := next);
    forall i, v | 0 <= i < |s'.spaces| && 0 <= v < NumPages(s', i)
      ensures PteOk(s', i, v) && CleanOk(s', i, v) && PageOf(s, i, v) == PageOf(s', i, v)
    {
      assert PteOk(s, i, v) && CleanOk(s, i, v);
    }
    forall g | 0 <= g < NUM_PHYS_PAGES ensures FrameOk(s', g) { assert FrameOk(s, g); }
  }

  /** Caching an uncached valid page in an empty slot. */
  lemma CachedSlot(tlb: seq<Entry>, j: nat, e: Entry, v: nat)
    requires j < |tlb| && !tlb[j].valid && e.valid
    requires e.virtualPage == v ==> TlbFind(tlb, v) == |tlb|
    ensures TlbFind(tlb[j := e], v) == if e.virtualPage == v then j else TlbFind(tlb, v)
  {
    if e.virtualPage != v {
      SameTagsSameSlot(tlb[j := e], tlb, v);
    } else {
      assert Maps(tlb[j := e][j], v);
    }
  }

  /** Slot `j` filled from the page table. */
  function Cache(s: State, j: nat, u: nat): State
    requires Shape(s) && j < TLB_SIZE && u < NumPages(s, s.cur)
  {
    s.(tlb := s.tlb[j := s.spaces[s.cur].pageTable[u]])
  }

  ghost predicate CanCache(s: State, j: nat, u: nat) {
    && Inv(s) && j < TLB_SIZE && !s.tlb[j].valid
    && u < NumPages(s, s.cur) && s.spaces[s.cur].pageTable[u].valid && TlbFind(s.tlb, u) == TLB_SIZE
  }

  lemma CacheKeepsPage(s: State, j: nat, u: nat, i: nat, v: nat)
    requires CanCache(s, j, u) && i < |s.spaces| && v < NumPages(s, i)
    ensures PteOk(Cache(s, j, u), i, v) && CleanOk(Cache(s, j, u), i, v)
    ensures PageOf(Cache(s, j, u), i, v) == PageOf(s, i, v)
  {
    assert PteOk(s, s.cur, u);
    assert PteOk(s, i, v) && CleanOk(s, i, v);
    assert PageOf(Cache(s, j, u), i, v) == PageOf(s, i, v);
    hide PageOf, Backing, SlotOk, FrameOk, InvBut;
    CachedSlot(s.tlb, j, s.spaces[s.cur].pageTable[u], v);
  }

  lemma CacheKeepsInvariant(s: State, j: nat, u: nat)
    requires CanCache(s, j, u)
    ensures Inv(Cache(s, j, u)) && SameViews(s, Cache(s, j, u)) && TlbFind(Cache(s, j, u).tlb, u) == j
  {
    var s' := Cache(s, j, u);
    assert PteOk(s, s.cur, u);
    CachedSlot(s.tlb, j, s.spaces[s.cur].pageTable[u], u);
    forall i, v | 0 <= i < |s'.spaces| && 0 <= v < NumPages(s', i)
      ensures PteOk(s', i, v) && CleanOk(s', i, v) && PageOf(s, i, v) == PageOf(s', i, v)
    {
      CacheKeepsPage(s, j, u, i, v);
    }
    hide PteOk, CleanOk, PageOf;
    forall k | 0 <= k < TLB_SIZE ensures SlotOk(s', k) { assert SlotOk(s, k); }
    forall g | 0 <= g < NUM_PHYS_PAGES ensures FrameOk(s', g) { assert FrameOk(s, g); }
  }

  /** The refill, taken apart. */
  function Uncached(s: State): State
    requires Shape(s) && (s.tlb[s.slot].valid ==> s.tlb[s.slot].virtualPage < NumPages(s, s.cur))
  {
    if s.tlb[s.slot].valid then DropSlot(s, s.slot, s.tlb[s.slot]) else s
  }

  lemma UncachedKeepsInvariant(s: State, u: nat)
    requires Inv(s) && u < NumPages(s, s.cur) && s.spaces[s.cur].pageTable[u].valid
    requires TlbFind(s.tlb, u) == TLB_SIZE
    ensures s.tlb[s.slot].valid ==> s.tlb[s.slot].virtualPage < NumPages(s, s.cur)
    ensures CanCache(Uncached(s), s.slot, u) && SameViews(s, Uncached(s))
    ensures Refill(s, u) == Cache(Uncached(s), s.slot, u).(slot := (s.slot + 1) % TLB_SIZE)
  {
    assert SlotOk(s, s.slot);
    var t := s.tlb[s.slot];
    if t.valid {
      DropKeepsInvariant(s, s.slot, t);
      DroppedSlot(s.tlb, s.slot, t.(valid := false), u);
      assert t.virtualPage != u;
    }
  }

  /** After a handled fault the page is cached, and nothing visible has changed. */
  lemma RefillKeepsInvariant(s: State, u: nat)
    requires Inv(s) && u < NumPages(s, s.cur) && s.spaces[s.cur].pageTable[u].valid
    requires TlbFind(s.tlb, u) == TLB_SIZE
    ensures s.tlb[s.slot].valid ==> s.tlb[s.slot].virtualPage < NumPages(s, s.cur)
    ensures Inv(Refill(s, u)) && SameViews(s, Refill(s, u))
    ensures TlbFind(Refill(s, u).tlb, u) == s.slot
  {
    hide PteOk, CleanOk, SlotOk, FrameOk, NoDuplicates, SameViews, PageOf, Backing, TlbFind;
    UncachedKeepsInvariant(s, u);
    var w := Uncached(s);
    CacheKeepsInvariant(w, s.slot, u);
    var c := Cache(w, s.slot, u);
    FlagsKeepInvariant(c, Refill(s, u));
    SameViewsCompose(s, w, c);
    SameViewsCompose(s, c, Refill(s, u));
  }

  // ---------- bookkeeping that nothing visible depends on ----------

  ghost predicate SameButUse(e: Entry, e': Entry) {
    e' == e.(use := e'.use)
  }

  /** `s'` is `s` up to use bits, the clock hand and the next TLB slot. */
  ghost predicate FlagsOnly(s: State, s': State) {
    && Shape(s) && Shape(s')
    && |s'.spaces| == |s.spaces|
    && s' == s.(spaces := s'.spaces, tlb := s'.tlb, hand := s'.hand, slot := s'.slot)
    && (forall i :: 0 <= i < |s.spaces| ==>
          && |s'.spaces[i].pageTable| == |s.spaces[i].pageTable|
          && s'.spaces[i] == s.spaces[i].(pageTable := s'.spaces[i].pageTable))
    && (forall i, v :: 0 <= i < |s.spaces| && 0 <= v < NumPages(s, i) ==>
          SameButUse(s.spaces[i].pageTable[v], s'.spaces[i].pageTable[v]))
    && (forall j :: 0 <= j < TLB_SIZE ==> SameButUse(s.tlb[j], s'.tlb[j]))
  }

  lemma FlagsCompose(a: State, b: State, c: State)
    requires FlagsOnly(a, b) && FlagsOnly(b, c)
    ensures FlagsOnly(a, c)
  {
    forall i, v | 0 <= i < |a.spaces| && 0 <= v < NumPages(a, i)
      ensures SameButUse(a.spaces[i].pageTable[v], c.spaces[i].pageTable[v])
    {
      assert SameButUse(a.spaces[i].pageTable[v], b.spaces[i].pageTable[v]);
      assert SameButUse(b.spaces[i].pageTable[v], c.spaces[i].pageTable[v]);
    }
  }

  lemma FlagsKeepInvariant(s: State, s': State)
    requires Inv(s) && FlagsOnly(s, s')
    ensures Inv(s') && SameViews(s, s')
  {
    forall i, v | 0 <= i < |s'.spaces| && 0 <= v < NumPages(s', i)
      ensures PteOk(s', i, v) && CleanOk(s', i, v) && PageOf(s, i, v) == PageOf(s', i, v)
      ensures s'.spaces[i].pageTable[v].valid ==> s'.spaces[i].pageTable[v].physicalPage != NUM_PHYS_PAGES
    {
      assert PteOk(s, i, v) && CleanOk(s, i, v);
      assert SameButUse(s.spaces[i].pageTable[v], s'.spaces[i].pageTable[v]);
      assert Backing(s.spaces[i], v) == Backing(s'.spaces[i], v);
      SameTagsSameSlot(s.tlb, s'.tlb, v);
    }
    forall k | 0 <= k < TLB_SIZE ensures SlotOk(s', k) { assert SlotOk(s, k); }
    forall g | 0 <= g < NUM_PHYS_PAGES ensures FrameOk(s', g) { assert FrameOk(s, g); }
  }

  /** The machine as it starts: fresh address spaces, empty TLB, all frames free. */
  lemma BootState(s: State)
    requires Shape(s) && TlbEmpty(s)
    requires forall f :: 0 <= f < NUM_PHYS_PAGES ==> !s.used[f]
    requires forall i :: 0 <= i < |s.spaces| ==> s.spaces[i] == NewSpace(s.spaces[i].exe)
    ensures Inv(s)
    ensures forall i, v :: 0 <= i < |s.spaces| && 0 <= v < NumPages(s, i) ==>
              PageOf(s, i, v) == DemandPage(s.spaces[i].exe, v)
  {
    forall i, v | 0 <= i < |s.spaces| && 0 <= v < NumPages(s, i)
      ensures PteOk(s, i, v) && CleanOk(s, i, v) && PageOf(s, i, v) == DemandPage(s.spaces[i].exe, v)
      ensures !s.spaces[i].pageTable[v].valid
    {
      assert s.spaces[i] == NewSpace(s.spaces[i].exe);
    }
  }

  /** With a single address space, no frame is ever anyone else's. */
  lemma CrowdedNeedsTwo(s: State)
    requires Inv(s) && Crowded(s)
    ensures |s.spaces| > 1
  {
    var f :| 0 <= f < NUM_PHYS_PAGES && s.owner[f] != s.cur;
    assert FrameOk(s, f);
  }
}
