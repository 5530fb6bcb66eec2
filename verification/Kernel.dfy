/**
 The page-fault path as the kernel and the MMU execute it: tables are arrays
 changed in place, lookups are scanning loops.  Every method is tied to the
 steps of module Vm, and so to the flat memory of the running program.
 */
module Kernels {
  import opened Options
  import opened FlatMemory
  import opened Vm
  import opened PagingInvariant
  import opened Bitmaps
  import opened Coremaps

  datatype ExceptionType = NoException | PageFaultException | ReadOnlyException
                         | BusErrorException | AddressErrorException

  /** The page-replacement policies selectable at build time. */
  datatype Policy = Fifo | Clock | Random

  /** What `Translate` decides from the TLB. */
  function Outcome(tlb: seq<Entry>, addr: nat, size: nat, writing: bool): ExceptionType
    requires |tlb| == TLB_SIZE
  {
    var j := TlbFind(tlb, addr / PAGE_SIZE);
    if !Aligned(addr, size) then AddressErrorException
    else if j == TLB_SIZE then PageFaultException
    else if tlb[j].readOnly && writing then ReadOnlyException
    else if tlb[j].physicalPage >= NUM_PHYS_PAGES then BusErrorException
    else NoException
  }

  /** What a program can meet under the paging invariant: a hit, a fault or a misaligned address. */
  function Access(tlb: seq<Entry>, addr: nat, size: nat): ExceptionType
    requires |tlb| == TLB_SIZE
  {
    if !Aligned(addr, size) then AddressErrorException
    else if TlbFind(tlb, addr / PAGE_SIZE) == TLB_SIZE then PageFaultException
    else NoException
  }

  /** The two TLBs cache the same pages, in the same slots. */
  ghost predicate SameTags(tlb: seq<Entry>, tlb': seq<Entry>) {
    |tlb| == |tlb'| && forall j :: 0 <= j < |tlb| ==> SameTag(tlb[j], tlb'[j])
  }

  /** Entries that say the same, but for their use and dirty bits. */
  ghost predicate SameTag(e: Entry, e': Entry) {
    e'.valid == e.valid && e'.virtualPage == e.virtualPage && e'.physicalPage == e.physicalPage
  }

  /** The coremap and the hand are the same. */
  ghost predicate SameShelf(s: State, s': State) {
    s'.used == s.used && s'.owner == s.owner && s'.vpns == s.vpns && s'.hand == s.hand
  }

  /** Frame `f` now holds page `v` of the running space. */
  ghost predicate Shelved(s: State, s': State, f: nat, v: nat) {
    && f < |s.used| && f < |s.owner| && f < |s.vpns|
    && s'.used == s.used[f := true] && s'.owner == s.owner[f := s.cur] && s'.vpns == s.vpns[f := v]
  }

  /**
   What bringing in a page without an eviction does to the coremap: nothing if it is resident, else the
   first free frame is taken.
   */
  ghost predicate Settles(s: State, s': State, v: nat)
    requires Shape(s) && v < NumPages(s, s.cur)
  {
    if s.spaces[s.cur].pageTable[v].valid then SameShelf(s, s')
    else Shelved(s, s', FirstClear(s.used, 0), v) && s'.hand == s.hand
  }

  /** Slot by slot the same, but for those that mapped onto frame `g` and no longer do, and for `slot`. */
  ghost predicate Drops(tlb: seq<Entry>, tlb': seq<Entry>, g: nat, slot: nat) {
    && |tlb| == |tlb'|
    && forall j :: 0 <= j < |tlb| && j != slot ==>
         SameTag(tlb[j], tlb'[j]) || (MapsOnto(tlb[j], g) && !tlb'[j].valid)
  }

  /**
   Page `v` has got the next TLB slot.  If frame `g` was emptied for it, `g` was under the hand
   or next to it, the hand is behind it, and only slots that mapped onto it have been dropped.
   */
  ghost predicate Shifted(s: State, s': State, v: nat) {
    && |s.tlb| == |s'.tlb| == TLB_SIZE && s.slot < TLB_SIZE && s'.slot == (s.slot + 1) % TLB_SIZE
    && Maps(s'.tlb[s.slot], v)
    && ((s'.hand == s.hand && Drops(s.tlb, s'.tlb, NUM_PHYS_PAGES, s.slot)) ||
        var g := s'.tlb[s.slot].physicalPage;
        && (g == s.hand || g == (s.hand + 1) % NUM_PHYS_PAGES) && s'.hand == (g + 1) % NUM_PHYS_PAGES
        && Drops(s.tlb, s'.tlb, g, s.slot))
  }

  /** Page `v` can be brought in without an eviction. */
  predicate Roomy(s: State, v: nat)
    requires Shape(s)
  {
    v < NumPages(s, s.cur) && (s.spaces[s.cur].pageTable[v].valid || !Full(s))
  }

  /** The next TLB slot has been given to page `v`; the other slots stay. */
  ghost predicate Brought(s: State, s': State, v: nat) {
    && |s.tlb| == |s'.tlb| == TLB_SIZE && s.slot < TLB_SIZE && s'.slot == (s.slot + 1) % TLB_SIZE
    && Maps(s'.tlb[s.slot], v) && (forall j :: 0 <= j < TLB_SIZE && j != s.slot ==> s'.tlb[j] == s.tlb[j])
  }

  lemma RefillBrings(s: State, loaded: State, v: nat)
    requires Inv(loaded) && v < NumPages(loaded, loaded.cur) && loaded.spaces[loaded.cur].pageTable[v].valid
    requires loaded.tlb[loaded.slot].valid ==> loaded.tlb[loaded.slot].virtualPage < NumPages(loaded, loaded.cur)
    requires TlbFind(loaded.tlb, v) == TLB_SIZE
    ensures loaded.tlb == s.tlb && loaded.slot == s.slot ==> Brought(s, Refill(loaded, v), v)
  {
    hide PteOk, CleanOk, SlotOk, FrameOk, NoDuplicates, TlbFind, SameViews;
    RefillKeepsInvariant(loaded, v);
  }

  /** Read-only and bus errors cannot occur. */
  lemma HitOrMiss(s: State, addr: nat, size: nat, writing: bool)
    requires Inv(s)
    ensures Outcome(s.tlb, addr, size, writing) == Access(s.tlb, addr, size)
  {
    var j := TlbFind(s.tlb, addr / PAGE_SIZE);
    if j < TLB_SIZE {
      CachedPage(s, j);
    }
  }

  lemma ReadSeesView(s: State, j: nat, addr: nat, size: nat)
    requires Inv(s) && j < TLB_SIZE && s.tlb[j].valid && s.tlb[j].virtualPage == addr / PAGE_SIZE
    requires addr % PAGE_SIZE + size <= PAGE_SIZE
    ensures s.tlb[j].physicalPage < NUM_PHYS_PAGES && addr + size <= |View(s, s.cur)|
    ensures
      var p := s.tlb[j].physicalPage * PAGE_SIZE + addr % PAGE_SIZE;
      p + size <= MEMORY_SIZE && View(s, s.cur)[addr..addr + size] == s.memory[p..p + size]
  {
    CachedPage(s, j);
    var p := s.tlb[j].physicalPage * PAGE_SIZE + addr % PAGE_SIZE;
    var seen, stored := View(s, s.cur)[addr..addr + size], s.memory[p..p + size];
    hide Inv, View;
    forall k | 0 <= k < |seen|
      ensures seen[k] == stored[k]
    {
      ByteSeesView(s, j, addr, k);
    }
  }

  lemma ByteSeesView(s: State, j: nat, addr: nat, k: nat)
    requires Inv(s) && j < TLB_SIZE && s.tlb[j].valid && s.tlb[j].virtualPage == addr / PAGE_SIZE
    requires addr % PAGE_SIZE + k < PAGE_SIZE && s.tlb[j].physicalPage < NUM_PHYS_PAGES
    ensures addr + k < |View(s, s.cur)|
    ensures View(s, s.cur)[addr + k] == s.memory[s.tlb[j].physicalPage * PAGE_SIZE + addr % PAGE_SIZE + k]
  {
    CachedPage(s, j);
    hide Inv, PageOf, View, Frame;
    ViewAt(s, s.cur, addr / PAGE_SIZE, addr % PAGE_SIZE + k);
    FrameAt(s.memory, s.tlb[j].physicalPage, addr % PAGE_SIZE + k);
    assert addr == addr / 128 * 128 + addr % 128;
  }

  lemma ViewAt(s: State, i: nat, v: nat, o: nat)
    requires Shape(s) && i < |s.spaces| && v < NumPages(s, i) && o < PAGE_SIZE
    ensures v * PAGE_SIZE + o < |View(s, i)| && View(s, i)[v * PAGE_SIZE + o] == PageOf(s, i, v)[o]
  {
    hide PageOf;
    assert (v * 128 + o) / 128 == v && (v * 128 + o) % 128 == o;
  }

  lemma FrameAt(memory: seq<byte>, f: nat, o: nat)
    requires |memory| == MEMORY_SIZE && f < NUM_PHYS_PAGES && o < PAGE_SIZE
    ensures Frame(memory, f)[o] == memory[f * PAGE_SIZE + o]
  {
  }

  /** The state after a write that hits. */
  function StoreHit(s: State, addr: nat, size: nat, value: int): State
    requires Shape(s) && Outcome(s.tlb, addr, size, true) == NoException && AccessSize(size)
  {
    WithinPage(addr, size);
    WriteThrough(s, TlbFind(s.tlb, addr / PAGE_SIZE), addr % PAGE_SIZE, Bytes(value, size))
  }

  lemma StoreHitIsStore(s: State, addr: nat, size: nat, value: int)
    requires Inv(s) && Outcome(s.tlb, addr, size, true) == NoException && AccessSize(size)
    ensures Inv(StoreHit(s, addr, size, value))
    ensures addr + size <= |View(s, s.cur)|
    ensures View(StoreHit(s, addr, size, value), s.cur) == Store(View(s, s.cur), addr, size, value)
    ensures forall i :: 0 <= i < |s.spaces| && i != s.cur ==> View(StoreHit(s, addr, size, value), i) == View(s, i)
  {
    var j, o, data := TlbFind(s.tlb, addr / PAGE_SIZE), addr % PAGE_SIZE, Bytes(value, size);
    WithinPage(addr, size);
    assert addr == s.tlb[j].virtualPage * PAGE_SIZE + o;
    WriteKeepsInvariant(s, j, o, data);
    WriteIsSplice(s, j, o, data);
  }

  /** Overlaying part of a page that was itself just laid over memory. */
  lemma SpliceOver(memory: seq<byte>, base: nat, page: seq<byte>, data: seq<byte>, o: nat)
    requires base + |page| <= |memory| && o + |data| <= |page|
    ensures Splice(Splice(memory, base, page), base + o, data) == Splice(memory, base, Splice(page, o, data))
  {
  }

  function Padded(prefix: seq<byte>): (page: seq<byte>)
    requires |prefix| <= PAGE_SIZE
    ensures |page| == PAGE_SIZE
  {
    prefix + Zeros(PAGE_SIZE - |prefix|)
  }

  /** Copying `data` right behind what has been copied into a zeroed frame. */
  lemma AppendToPage(memory: seq<byte>, base: nat, prefix: seq<byte>, data: seq<byte>)
    requires base + PAGE_SIZE <= |memory| && |prefix| + |data| <= PAGE_SIZE
    ensures Splice(Splice(memory, base, Padded(prefix)), base + |prefix|, data)
         == Splice(memory, base, Padded(prefix + data))
  {
    SpliceOver(memory, base, Padded(prefix), data, |prefix|);
    assert Splice(Padded(prefix), |prefix|, data) == Padded(prefix + data);
  }

  lemma PaddedParts(exe: Executable, vpn: nat)
    requires LayoutOk(exe)
    ensures
      var code := CodePart(exe, vpn);
      && Padded(code + DataPart(exe, vpn, |code|)) == DemandPage(exe, vpn)
      && code + [] == code
  {
  }

  /** The page is there to be loaded, and is not loaded. */
  predicate ReadyToLoad(s: State, vpn: nat) {
    s.cur < |s.spaces| && vpn < NumPages(s, s.cur) && !s.spaces[s.cur].pageTable[vpn].valid
  }

  /** `e` is `s` with nothing visible changed and frame `frame` free for page `vpn`. */
  ghost predicate CanLoad(s: State, e: State, frame: nat, vpn: nat) {
    && frame < NUM_PHYS_PAGES && InvBut(e, frame) && SameViews(s, e)
    && e.cur == s.cur && ReadyToLoad(e, vpn)
  }

  lemma FlagsKeepReady(s: State, s': State, vpn: nat)
    requires FlagsOnly(s, s') && ReadyToLoad(s, vpn)
    ensures ReadyToLoad(s', vpn)
  {
    assert SameButUse(s.spaces[s.cur].pageTable[vpn], s'.spaces[s.cur].pageTable[vpn]);
  }

  lemma ReadyAfterEviction(s: State, picked: State, frame: nat, vpn: nat)
    requires Inv(s) && ReadyToLoad(s, vpn) && FlagsOnly(s, picked) && frame < NUM_PHYS_PAGES
    requires s.used[frame] && s.owner[frame] == s.cur
    ensures Inv(picked) && CanEvict(picked, frame)
    ensures CanLoad(s, Evict(picked, frame), frame, vpn)
  {
    FlagsKeepInvariant(s, picked);
    EvictFrameRule(picked, frame);
    EvictPte(picked, frame);
    EvictKeepsInvariant(picked, frame);
    SameViewsCompose(s, picked, Evict(picked, frame));
    assert SameButUse(s.spaces[s.cur].pageTable[vpn], picked.spaces[s.cur].pageTable[vpn]);
  }

  /** What `TLBSearch` points at. */
  datatype EntryRef = InTlb(slot: nat) | InTable(vpn: nat) | Foreign

  /** The entry that counts for frame `f`: its TLB copy, else that of the running page table. */
  function EntryOf(s: State, f: nat): EntryRef
    requires Shape(s) && f < NUM_PHYS_PAGES
  {
    var j := TlbFindFrame(s.tlb, f);
    if j < TLB_SIZE then InTlb(j) else if s.owner[f] != s.cur then Foreign else InTable(s.vpns[f])
  }

  predicate Refers(s: State, r: EntryRef)
    requires Shape(s)
  {
    (r.InTlb? && r.slot < TLB_SIZE) || (r.InTable? && r.vpn < NumPages(s, s.cur))
  }

  function EntryAt(s: State, r: EntryRef): Entry
    requires Shape(s) && Refers(s, r)
  {
    if r.InTlb? then s.tlb[r.slot] else s.spaces[s.cur].pageTable[r.vpn]
  }

  function WithoutUse(s: State, r: EntryRef): State
    requires Shape(s) && Refers(s, r)
  {
    if r.InTlb? then s.(tlb := s.tlb[r.slot := s.tlb[r.slot].(use := false)])
    else SetPte(s, r.vpn, s.spaces[s.cur].pageTable[r.vpn].(use := false))
  }

  // ---------- the clock ----------

  /** The entry of the frame under the hand; `Foreign` has none. */
  function HandEntry(s: State): Option<Entry>
    requires Shape(s)
  {
    var r := EntryOf(s, s.hand);
    if Refers(s, r) then Some(EntryAt(s, r)) else None
  }

  /**
   The frame the clock takes: the one under the hand, but the next one, whose entry
   nobody looked at, if that entry was both used and dirty.
   */
  function ClockChoice(s: State): nat
    requires Shape(s)
  {
    var e := HandEntry(s);
    if e.Some? && e.value.use && e.value.dirty then (s.hand + 1) % NUM_PHYS_PAGES else s.hand
  }

  /** The frame that FIFO or the clock takes. */
  function VictimOf(policy: Policy, s: State): nat
    requires Shape(s)
  {
    if policy.Clock? then ClockChoice(s) else s.hand
  }

  /**
   Bringing in page `v` means an eviction across address spaces: it is absent, every frame is
   in use, and the frame that the policy takes is another space's.  Random replacement may
   take any.
   */
  ghost predicate Stops(policy: Policy, s: State, v: nat)
    requires Shape(s)
  {
    && v < NumPages(s, s.cur) && !s.spaces[s.cur].pageTable[v].valid && Full(s)
    && if policy.Random? then exists f :: 0 <= f < NUM_PHYS_PAGES && s.owner[f] != s.cur
       else s.owner[VictimOf(policy, s)] != s.cur
  }

  /** Page `v` has been brought into the frame that the policy took. */
  ghost predicate Vacated(policy: Policy, s: State, s': State, v: nat)
    requires Shape(s)
  {
    var g := VictimOf(policy, s);
    && s.cur == s'.cur < |s'.spaces| && v < |s'.spaces[s.cur].pageTable|
    && s'.spaces[s.cur].pageTable[v].physicalPage == g
    && s'.hand == (g + 1) % NUM_PHYS_PAGES && s'.slot == s.slot && Drops(s.tlb, s'.tlb, g, TLB_SIZE)
  }

  /** If the frame under the hand is another space's, the clock does not look any further. */
  lemma ForeignChoice(s: State)
    requires Inv(s) && Full(s) && s.owner[s.hand] != s.cur
    ensures ClockChoice(s) == s.hand
  {
    EntryOfHand(s);
  }

  /** The same for either policy. */
  lemma ForeignVictim(policy: Policy, s: State)
    requires Inv(s) && Full(s)
    ensures VictimOf(policy, s) < NUM_PHYS_PAGES && s.hand < NUM_PHYS_PAGES
    ensures s.owner[s.hand] != s.cur ==> VictimOf(policy, s) == s.hand
  {
    if s.owner[s.hand] != s.cur {
      ForeignChoice(s);
    }
  }

  /**
   When the clock takes the next frame: exactly if the TLB slot that maps onto the frame under the
   hand, or without one the running space's entry for its page, is both used and dirty.
   */
  lemma ClockLooksAtHand(s: State)
    requires Inv(s) && Full(s) && s.owner[s.hand] == s.cur
    ensures s.vpns[s.hand] < NumPages(s, s.cur)
    ensures forall j :: 0 <= j < TLB_SIZE && s.tlb[j].valid && s.tlb[j].physicalPage == s.hand ==>
      ClockChoice(s) == if s.tlb[j].use && s.tlb[j].dirty then (s.hand + 1) % NUM_PHYS_PAGES else s.hand
    ensures (forall j :: 0 <= j < TLB_SIZE ==> !(s.tlb[j].valid && s.tlb[j].physicalPage == s.hand)) ==>
      var e := s.spaces[s.cur].pageTable[s.vpns[s.hand]];
      ClockChoice(s) == if e.use && e.dirty then (s.hand + 1) % NUM_PHYS_PAGES else s.hand
  {
    assert FrameOk(s, s.hand);
    hide CleanOk, Shared;
    var i := TlbFindFrame(s.tlb, s.hand);
    forall j | 0 <= j < TLB_SIZE && s.tlb[j].valid && s.tlb[j].physicalPage == s.hand
      ensures j == i
    {
      OneSlotPerFrame(s, i, j);
    }
  }

  /** Two slots do not map onto the same frame. */
  lemma OneSlotPerFrame(s: State, i: nat, j: nat)
    requires Inv(s) && i < TLB_SIZE && j < TLB_SIZE && s.tlb[i].valid && s.tlb[j].valid
    requires s.tlb[i].physicalPage == s.tlb[j].physicalPage
    ensures i == j
  {
    hide CleanOk;
    assert SlotOk(s, i) && SlotOk(s, j);
    assert PteOk(s, s.cur, s.tlb[i].virtualPage) && PteOk(s, s.cur, s.tlb[j].virtualPage);
  }

  lemma ClockChoiceNearHand(s: State)
    requires Shape(s)
    ensures ClockChoice(s) < NUM_PHYS_PAGES
      && (ClockChoice(s) == s.hand || ClockChoice(s) == (s.hand + 1) % NUM_PHYS_PAGES)
  {
  }

  /** Evicting frame `f` drops at most the TLB slots that mapped onto it. */
  lemma EvictDrops(s: State, picked: State, f: nat)
    requires FlagsOnly(s, picked) && CanEvict(picked, f)
    ensures Drops(s.tlb, Evict(picked, f).tlb, f, TLB_SIZE)
    ensures Evict(picked, f).hand == picked.hand && Evict(picked, f).slot == picked.slot
  {
    forall j | 0 <= j < TLB_SIZE
      ensures SameTag(s.tlb[j], picked.tlb[j])
    {
      assert SameButUse(s.tlb[j], picked.tlb[j]);
    }
  }

  lemma RefillShifts(policy: Policy, s: State, loaded: State, v: nat)
    requires Inv(s) && Inv(loaded) && v < NumPages(loaded, loaded.cur) && loaded.spaces[loaded.cur].pageTable[v].valid
    requires loaded.tlb[loaded.slot].valid ==> loaded.tlb[loaded.slot].virtualPage < NumPages(loaded, loaded.cur)
    requires TlbFind(loaded.tlb, v) == TLB_SIZE
    requires (loaded.tlb == s.tlb && loaded.slot == s.slot && loaded.hand == s.hand) || Vacated(policy, s, loaded, v)
    ensures Shifted(s, Refill(loaded, v), v)
  {
    hide PteOk, CleanOk, SlotOk, FrameOk, NoDuplicates, TlbFind, SameViews, ClockChoice;
    RefillKeepsInvariant(loaded, v);
    ClockChoiceNearHand(s);
    RefilledEntry(loaded, v);
  }

  /** The refilled slot has the frame of the page. */
  lemma RefilledEntry(s: State, v: nat)
    requires Inv(s) && v < NumPages(s, s.cur) && s.spaces[s.cur].pageTable[v].valid
    requires s.tlb[s.slot].valid ==> s.tlb[s.slot].virtualPage < NumPages(s, s.cur)
    requires TlbFind(s.tlb, v) == TLB_SIZE
    ensures Refill(s, v).tlb[s.slot].physicalPage == s.spaces[s.cur].pageTable[v].physicalPage
    ensures Refill(s, v).hand == s.hand
  {
    hide PteOk, CleanOk, SlotOk, FrameOk, NoDuplicates;
    assert s.tlb[s.slot].valid ==> s.tlb[s.slot].virtualPage != v;
  }

  /** An absent page that the policy cannot bring in is not in the TLB. */
  lemma StopsMisses(policy: Policy, s: State, v: nat)
    requires Inv(s)
    ensures Stops(policy, s, v) ==> TlbFind(s.tlb, v) == TLB_SIZE
  {
    hide PteOk, CleanOk, FrameOk, NoDuplicates, ClockChoice, Full;
    if Stops(policy, s, v) {
      AbsentPageIsUncached(s, NUM_PHYS_PAGES, v);
    }
  }

  /** The state when the clock has come to counter `p` of round `round`. */
  function Looked(s: State, round: nat, p: nat): State
    requires Shape(s)
  {
    var r := EntryOf(s, s.hand);
    if !Refers(s, r) || round < 2 || (round == 2 && p == s.hand) then s else WithoutUse(s, r)
  }

  /** What the flags must have been for the clock to have come so far. */
  predicate Seen(s: State, round: nat, p: nat)
    requires Shape(s)
  {
    var e := HandEntry(s);
    if e.None? then round == 1 && p == s.hand
    else if round == 1 then p > s.hand ==> e.value.use || e.value.dirty
    else if round == 2 then
      && (e.value.use || (p == s.hand && e.value.dirty))
      && (p > s.hand + 1 ==> !e.value.dirty)
    else round == 3 && p == s.hand && e.value.use && !e.value.dirty
  }

  lemma EntryOfHand(s: State)
    requires Inv(s) && Full(s)
    ensures EntryOf(s, s.hand).Foreign? <==> s.owner[s.hand] != s.cur
    ensures EntryOf(s, s.hand).Foreign? <==> HandEntry(s).None?
    ensures EntryOf(s, s.hand).Foreign? ==> Shared(s)
    ensures !EntryOf(s, s.hand).Foreign? ==> Refers(s, EntryOf(s, s.hand))
  {
    var j := TlbFindFrame(s.tlb, s.hand);
    assert FrameOk(s, s.hand);
    if j < TLB_SIZE {
      assert SlotOk(s, j);
      assert PteOk(s, s.cur, s.tlb[j].virtualPage);
    }
  }

  /** Clearing a use bit keeps everything visible and leads to the same entry. */
  lemma WithoutUseIsQuiet(s: State, r: EntryRef)
    requires Inv(s) && Refers(s, r) && r == EntryOf(s, s.hand)
    ensures Inv(WithoutUse(s, r)) && FlagsOnly(s, WithoutUse(s, r))
    ensures EntryOf(WithoutUse(s, r), s.hand) == r && EntryAt(WithoutUse(s, r), r) == EntryAt(s, r).(use := false)
    ensures WithoutUse(WithoutUse(s, r), r) == WithoutUse(s, r)
  {
    WithoutUseTwice(s, r);
    WithoutUseFlags(s, r);
    var t := WithoutUse(s, r);
    FlagsKeepInvariant(s, t);
    hide PteOk, CleanOk, SlotOk, FrameOk, NoDuplicates, TlbFindFrame, SameViews;
    SameTagsSameFrame(s.tlb, t.tlb, s.hand);
  }

  lemma WithoutUseFlags(s: State, r: EntryRef)
    requires Shape(s) && Refers(s, r)
    ensures FlagsOnly(s, WithoutUse(s, r))
  {
  }

  lemma WithoutUseTwice(s: State, r: EntryRef)
    requires Shape(s) && Refers(s, r)
    ensures Shape(WithoutUse(s, r)) && Refers(WithoutUse(s, r), r)
      && WithoutUse(WithoutUse(s, r), r) == WithoutUse(s, r)
  {
    var t := WithoutUse(s, r);
    var u := WithoutUse(t, r);
    if r.InTlb? {
      assert u.tlb == t.tlb;
    } else {
      assert u.spaces[s.cur].pageTable == t.spaces[s.cur].pageTable;
      assert u.spaces == t.spaces;
    }
  }

  lemma SameTagsSameFrame(tlb: seq<Entry>, tlb': seq<Entry>, f: nat)
    requires |tlb| == |tlb'| && forall k :: 0 <= k < |tlb| ==> MapsOnto(tlb[k], f) == MapsOnto(tlb'[k], f)
    ensures TlbFindFrame(tlb, f) == TlbFindFrame(tlb', f)
  {
    var a, b := TlbFindFrame(tlb, f), TlbFindFrame(tlb', f);
    if a < |tlb| {
      assert MapsOnto(tlb'[a], f);
    }
  }

  lemma FlagsKept(s: State)
    requires Shape(s)
    ensures FlagsOnly(s, s)
  {
  }

  lemma HandIsQuiet(s: State, hand: nat)
    requires Shape(s) && hand < NUM_PHYS_PAGES
    ensures FlagsOnly(s, s.(hand := hand))
  {
  }

  lemma LookedIsQuiet(s: State, round: nat, p: nat)
    requires Inv(s) && Full(s)
    ensures
      var t := Looked(s, round, p);
      && Inv(t) && FlagsOnly(s, t) && Full(t) && t.hand == s.hand && t.cur == s.cur
      && EntryOf(t, s.hand) == EntryOf(s, s.hand)
      && (Refers(s, EntryOf(s, s.hand)) ==>
           && Refers(t, EntryOf(s, s.hand))
           && EntryAt(t, EntryOf(s, s.hand)).dirty == EntryAt(s, EntryOf(s, s.hand)).dirty
           && EntryAt(t, EntryOf(s, s.hand)).use == (t == s && EntryAt(s, EntryOf(s, s.hand)).use)
           && WithoutUse(t, EntryOf(s, s.hand)) == WithoutUse(s, EntryOf(s, s.hand)))
  {
    FlagsKept(s);
    var r := EntryOf(s, s.hand);
    if Refers(s, r) {
      WithoutUseIsQuiet(s, r);
    }
  }

  class Kernel {
    const policy: Policy
    const tlb: array<Entry>
    const mainMemory: array<byte>
    const coremap: Coremap
    var spaces: seq<Space>
    var cur: nat
    var victim: nat   // the clock hand of the replacement policy
    var index: nat    // the next TLB slot to be replaced

    ghost predicate Wired() {
      && coremap.Valid() && coremap.size == NUM_PHYS_PAGES
      && tlb.Length == TLB_SIZE && mainMemory.Length == MEMORY_SIZE
      && (tlb as object) !in coremap.Repr() && (mainMemory as object) !in coremap.Repr()
      && (coremap.framesMap.words as object) != coremap.addrSpaces
      && (coremap.framesMap.words as object) != coremap.vpns
      && (tlb as object) != mainMemory
    }

    ghost function Repr(): set<object> {
      {this, tlb, mainMemory} + coremap.Repr()
    }

    /** The abstract state that the arrays and fields represent. */
    ghost function S(): State
      requires Wired()
      reads Repr()
    {
      State(spaces, cur, tlb[..], mainMemory[..],
            coremap.framesMap.Bits(), coremap.addrSpaces[..], coremap.vpns[..], victim, index)
    }

    ghost predicate Valid()
      reads Repr()
    {
      Wired() && Inv(S())
    }

    /** Boots with one fresh address space per program, the first one running. */
    constructor (policy: Policy, programs: seq<Executable>)
      requires |programs| > 0
      requires forall i :: 0 <= i < |programs| ==> LayoutOk(programs[i])
      ensures Valid() && fresh(Repr())
      ensures this.policy == policy && cur == 0 && |spaces| == |programs|
      ensures forall i :: 0 <= i < |programs| ==> spaces[i] == NewSpace(programs[i])
      ensures S().hand == 0 && forall f :: 0 <= f < NUM_PHYS_PAGES ==> !S().used[f]
    {
      this.policy := policy;
      tlb := new Entry[TLB_SIZE](_ => Entry(0, 0, false, false, false, false));
      mainMemory := new byte[MEMORY_SIZE](_ => 0);
      coremap := new Coremap(NUM_PHYS_PAGES);
      spaces := [];
      cur, victim, index := 0, 0, 0;
      new;
      for i := 0 to |programs|
        invariant |spaces| == i
        invariant forall k :: 0 <= k < i ==> spaces[k] == NewSpace(programs[k])
        invariant cur == victim == index == 0 && fresh(Repr()) && Wired()
        invariant forall k :: 0 <= k < NUM_PHYS_PAGES ==> !coremap.framesMap.Bits()[k]
        invariant forall j :: 0 <= j < TLB_SIZE ==> !tlb[j].valid
      {
        var space := CreateSpace(programs[i]);
        spaces := spaces + [space];
      }
      BootState(S());
    }

    /** The page-table loop of the `AddressSpace` constructor. */
    static method CreateSpace(exe: Executable) returns (space: Space)
      ensures space == NewSpace(exe)
    {
      var size := |exe.code| + |exe.data| + exe.uninitSize + USER_STACK_SIZE;
      var numPages := DivRoundUp(size, PAGE_SIZE);
      var pageTable, swapMap := [], [];
      for i := 0 to numPages
        invariant |pageTable| == |swapMap| == i
        invariant forall v :: 0 <= v < i ==> pageTable[v] == NewSpace(exe).pageTable[v] && !swapMap[v]
      {
        pageTable := pageTable + [Entry(i, UNMAPPED, false, false, false, false)];
        swapMap := swapMap + [false];
      }
      space := Space(pageTable, swapMap, [], exe);
      assert space.pageTable == NewSpace(exe).pageTable && space.swapMap == NewSpace(exe).swapMap;
    }

    // ---------- MMU ----------

    /** The scan of `RetrievePageEntry`. */
    method RetrievePageEntry(vpn: nat) returns (e: ExceptionType, entry: nat)
      requires Wired()
      ensures entry == TlbFind(tlb[..], vpn)
      ensures e == if entry < TLB_SIZE then NoException else PageFaultException
    {
      var i := 0;
      while i < TLB_SIZE
        invariant 0 <= i <= TLB_SIZE
        invariant TlbFind(tlb[..], vpn) == Scan(tlb[..], vpn, TLB_SIZE - i)
      {
        if tlb[i].valid && tlb[i].virtualPage == vpn {
          return NoException, i;
        }
        i := i + 1;
      }
      return PageFaultException, TLB_SIZE;
    }

    method Translate(virtAddr: nat, size: nat, writing: bool) returns (e: ExceptionType, physAddr: nat)
      requires Wired() && AccessSize(size)
      modifies tlb
      ensures e == Outcome(old(tlb[..]), virtAddr, size, writing)
      ensures e == AddressErrorException <==> virtAddr % size != 0
      ensures e == PageFaultException <==>
        virtAddr % size == 0 && forall j :: 0 <= j < TLB_SIZE ==> !Maps(old(tlb[..])[j], virtAddr / PAGE_SIZE)
      ensures e != NoException ==> tlb[..] == old(tlb[..])
      ensures e == NoException ==>
        var j := TlbFind(old(tlb[..]), virtAddr / PAGE_SIZE);
        && tlb[..] == old(tlb[..])[j := old(tlb[j]).(use := true, dirty := old(tlb[j]).dirty || writing)]
        && physAddr == old(tlb[j]).physicalPage * PAGE_SIZE + virtAddr % PAGE_SIZE
        && virtAddr % PAGE_SIZE + size <= PAGE_SIZE && physAddr + size <= MEMORY_SIZE
    {
      hide TlbFind;
      physAddr := 0;
      if (size == 4 && virtAddr % 4 != 0) || (size == 2 && virtAddr % 2 != 0) {
        return AddressErrorException, 0;
      }
      var vpn, offset := virtAddr / PAGE_SIZE, virtAddr % PAGE_SIZE;
      var entry;
      e, entry := RetrievePageEntry(vpn);
      if e != NoException {
        return;
      }
      if tlb[entry].readOnly && writing {
        return ReadOnlyException, 0;
      }
      var pageFrame := tlb[entry].physicalPage;
      if pageFrame >= NUM_PHYS_PAGES {
        return BusErrorException, 0;
      }
      tlb[entry] := tlb[entry].(use := true);
      if writing {
        tlb[entry] := tlb[entry].(dirty := true);
      }
      physAddr := pageFrame * PAGE_SIZE + offset;
      WithinPage(virtAddr, size);
      assert pageFrame * PAGE_SIZE + PAGE_SIZE <= MEMORY_SIZE;
    }

    /** `MMU::ReadMem`: a hit returns what the flat memory holds; nothing visible changes either way. */
    method MmuReadMem(addr: nat, size: nat) returns (e: ExceptionType, value: int)
      requires Valid() && AccessSize(size)
      modifies tlb
      ensures Valid() && SameViews(old(S()), S()) && cur == old(cur)
      ensures e == Access(old(tlb[..]), addr, size)
      ensures e != NoException ==> S() == old(S())
      ensures e == NoException ==> addr + size <= |View(S(), cur)| && value == Load(View(S(), cur), addr, size)
      ensures e == NoException ==> SameTags(old(tlb[..]), tlb[..])
    {
      hide PteOk, CleanOk, SlotOk, FrameOk, NoDuplicates, TlbFind, PageOf;
      ghost var s := S();
      var physicalAddress;
      e, physicalAddress := Translate(addr, size, false);
      value := 0;
      HitOrMiss(s, addr, size, false);
      if e != NoException {
        assert S() == s;
        return;
      }
      ghost var j := TlbFind(s.tlb, addr / PAGE_SIZE);
      assert S() == Touch(s, j, false);
      ReadKeepsInvariant(s, j);
      ReadSeesView(s, j, addr, size);
      SameViewsMeansSameMemory(s, S());
      value := Extend(Unsigned(mainMemory[physicalAddress..physicalAddress + size]), size);
    }

    /** `MMU::WriteMem`: a hit is a store into the running flat memory and nothing else. */
    method MmuWriteMem(addr: nat, size: nat, value: int) returns (e: ExceptionType)
      requires Valid() && AccessSize(size)
      modifies tlb, mainMemory
      ensures Valid() && cur == old(cur) && |S().spaces| == |old(S()).spaces|
      ensures e == Access(old(tlb[..]), addr, size)
      ensures e != NoException ==> S() == old(S())
      ensures e == NoException ==>
        && addr + size <= |View(old(S()), cur)|
        && View(S(), cur) == Store(View(old(S()), cur), addr, size, value)
        && forall i :: 0 <= i < |S().spaces| && i != cur ==> View(S(), i) == View(old(S()), i)
    {
      ghost var s := S();
      var physicalAddress;
      e, physicalAddress := Translate(addr, size, true);
      HitOrMiss(s, addr, size, true);
      if e != NoException {
        assert S() == s;
        return;
      }
      CopyIn(physicalAddress, Bytes(value, size));
      assert S() == StoreHit(s, addr, size, value);
      StoreHitIsStore(s, addr, size, value);
    }

    /** A block copy into physical memory. */
    method CopyIn(base: nat, data: seq<byte>)
      requires base + |data| <= mainMemory.Length
      modifies mainMemory
      ensures mainMemory[..] == Splice(old(mainMemory[..]), base, data)
    {
      forall k | 0 <= k < |data| {
        mainMemory[base + k] := data[k];
      }
      assert mainMemory[..] == Splice(old(mainMemory[..]), base, data);
    }

    /** Copies `data` into a frame that so far holds `prefix` and zeros. */
    method CopyBehind(dirPhy: nat, ghost before: seq<byte>, ghost prefix: seq<byte>, n: nat, data: seq<byte>)
      requires dirPhy + PAGE_SIZE <= mainMemory.Length == |before| && n == |prefix| && n + |data| <= PAGE_SIZE
      requires mainMemory[..] == Splice(before, dirPhy, Padded(prefix))
      modifies mainMemory
      ensures mainMemory[..] == Splice(before, dirPhy, Padded(prefix + data))
    {
      hide Splice, Padded;
      CopyIn(dirPhy + n, data);
      AppendToPage(before, dirPhy, prefix, data);
    }

    // ---------- page replacement ----------

    /** Finds the live entry for the frame under the hand: the TLB copy if there is one. */
    method TLBSearch() returns (r: EntryRef)
      requires Valid() && Full(S())
      ensures r == EntryOf(S(), victim)
    {
      var j := 0;
      while j < TLB_SIZE
        invariant 0 <= j <= TLB_SIZE
        invariant TlbFindFrame(tlb[..], victim) == ScanFrames(tlb[..], victim, TLB_SIZE - j)
      {
        if tlb[j].valid && tlb[j].physicalPage == victim {
          return InTlb(j);
        }
        j := j + 1;
      }
      var vpn := coremap.GetVpn(victim);
      assert S().used[victim];
      if coremap.addrSpaces[victim] != cur {
        return Foreign;
      }
      return InTable(vpn);
    }

    method Flags(r: EntryRef) returns (use: bool, dirty: bool)
      requires Wired() && Shape(S()) && Refers(S(), r)
      ensures use == EntryAt(S(), r).use && dirty == EntryAt(S(), r).dirty
    {
      if r.InTlb? {
        return tlb[r.slot].use, tlb[r.slot].dirty;
      } else {
        return spaces[cur].pageTable[r.vpn].use, spaces[cur].pageTable[r.vpn].dirty;
      }
    }

    method ClearUse(r: EntryRef)
      requires Wired() && Shape(S()) && Refers(S(), r)
      modifies tlb, this`spaces
      ensures Wired() && S() == WithoutUse(old(S()), r)
    {
      if r.InTlb? {
        tlb[r.slot] := tlb[r.slot].(use := false);
      } else {
        var space := spaces[cur];
        spaces := spaces[cur := space.(pageTable := space.pageTable[r.vpn := space.pageTable[r.vpn].(use := false)])];
      }
    }

    /** Does round `round` of the clock take an entry with these flags? */
    static predicate Takes(round: nat, use: bool, dirty: bool) {
      !use && (dirty <==> round == 2 || round == 4)
    }

    /**
     The victim under each policy, called with every frame in use; only bookkeeping
     changes.  `foreign` reports that the clock looked at a frame of another address
     space, whose entry it would have read from the wrong page table.
     */
    method PickVictim() returns (foreign: bool, frame: nat)
      requires Valid() && Full(S())
      modifies tlb, this`spaces, this`victim
      ensures Valid() && FlagsOnly(old(S()), S())
      ensures foreign ==> Shared(S())
      ensures !foreign ==> frame < NUM_PHYS_PAGES
      ensures policy.Fifo? ==> !foreign && frame == old(victim) && victim == (old(victim) + 1) % NUM_PHYS_PAGES
      ensures policy.Clock? ==> (foreign <==> old(coremap.addrSpaces[victim]) != cur)
      ensures policy.Clock? && !foreign ==>
        frame == ClockChoice(old(S())) && victim == (ClockChoice(old(S())) + 1) % NUM_PHYS_PAGES
      ensures policy.Random? ==> !foreign && S() == old(S())
      ensures !policy.Random? ==>
        if foreign then old(S()).owner[VictimOf(policy, old(S()))] != cur
        else frame == VictimOf(policy, old(S())) && victim == (frame + 1) % NUM_PHYS_PAGES
    {
      hide ClockChoice, PteOk, CleanOk, SlotOk, FrameOk, NoDuplicates, Shared, Full;
      foreign, frame := false, 0;
      ghost var s := S();
      ForeignVictim(policy, s);
      match policy
      case Fifo =>
        frame := victim;
        victim := (victim + 1) % NUM_PHYS_PAGES;
        FlagsKeepInvariant(s, S());
      case Clock =>
        foreign, frame := ClockHand();
      case Random =>
        frame :| frame < NUM_PHYS_PAGES;
    }

    /** Four rounds, each looking at the entry of the frame under the hand again and again. */
    method ClockHand() returns (foreign: bool, frame: nat)
      requires Valid() && Full(S())
      modifies tlb, this`spaces, this`victim
      ensures Valid() && FlagsOnly(old(S()), S())
      ensures foreign <==> old(coremap.addrSpaces[victim]) != cur
      ensures foreign ==> Shared(S())
      ensures !foreign ==>
        frame == ClockChoice(old(S())) < NUM_PHYS_PAGES && victim == (ClockChoice(old(S())) + 1) % NUM_PHYS_PAGES
      ensures !foreign ==> victim == (frame + 1) % NUM_PHYS_PAGES
    {
      hide PteOk, CleanOk, SlotOk, FrameOk, NoDuplicates, FlagsOnly, TlbFindFrame, HandEntry;
      ghost var s := S();
      EntryOfHand(s);
      for round := 1 to 5
        invariant Wired() && S() == Looked(s, round, victim) && victim == s.hand && Seen(s, round, victim)
      {
        for p := victim to NUM_PHYS_PAGES + victim
          invariant Wired() && S() == Looked(s, round, p) && victim == s.hand && Seen(s, round, p)
        {
          LookedIsQuiet(s, round, p);
          var entry := TLBSearch();
          if entry.Foreign? {
            return true, 0;
          }
          var done := ClockLook(entry, round, p, s);
          if done {
            return false, p % NUM_PHYS_PAGES;
          }
        }
      }
      assert false;
    }

    /** One look: take the frame that the loop counter names, or go on, in round 2 with the use bit cleared. */
    method ClockLook(entry: EntryRef, round: nat, p: nat, ghost s: State) returns (done: bool)
      requires Wired() && Inv(s) && Full(s) && Seen(s, round, p) && s.hand <= p < NUM_PHYS_PAGES + s.hand
      requires S() == Looked(s, round, p) && entry == EntryOf(s, s.hand) && Refers(s, entry)
      modifies tlb, this`spaces, this`victim
      ensures Wired()
      ensures done ==>
        && Inv(S()) && FlagsOnly(s, S())
        && p % NUM_PHYS_PAGES == ClockChoice(s) && victim == (ClockChoice(s) + 1) % NUM_PHYS_PAGES
      ensures !done ==> S() == Looked(s, round, p + 1) && victim == s.hand && Seen(s, round, p + 1)
    {
      hide PteOk, CleanOk, SlotOk, FrameOk, NoDuplicates, FlagsOnly, TlbFindFrame, EntryOf;
      LookedIsQuiet(s, round, p);
      var use, dirty := Flags(entry);
      done := Takes(round, use, dirty);
      if done {
        ghost var t := S();
        victim := (p + 1) % NUM_PHYS_PAGES;
        HandIsQuiet(t, victim);
        FlagsKeepInvariant(t, S());
        FlagsCompose(s, t, S());
      } else if round == 2 {
        ClearUse(entry);
      }
    }

    /** Writes the victim's TLB entry back to the page table, and its page to swap if dirty. */
    method EscribirFrameenSwap(frame: nat)
      requires Wired() && CanEvict(S(), frame)
      modifies tlb, this`spaces
      ensures S() == Evict(old(S()), frame)
    {
      ghost var s := S();
      var vpn := coremap.vpns[frame];
      var space := coremap.addrSpaces[frame];
      var i := 0;
      while i < TLB_SIZE
        invariant 0 <= i <= TLB_SIZE && S() == s
        invariant TlbFindFrame(s.tlb, frame) == ScanFrames(s.tlb, frame, TLB_SIZE - i)
      {
        if tlb[i].physicalPage == frame && tlb[i].valid {
          SetEntry(vpn, tlb[i]);
          tlb[i] := tlb[i].(valid := false);
          break;
        }
        i := i + 1;
      }
      assert S() == Reclaim(s, frame);
      if spaces[cur].pageTable[vpn].dirty {
        var page := mainMemory[frame * PAGE_SIZE..(frame + 1) * PAGE_SIZE];
        var o := spaces[space];
        spaces := spaces[space := o.(swap := FileWriteAt(o.swap, vpn * PAGE_SIZE, page),
                                     swapMap := o.swapMap[vpn := true])];
      }
      SetEntry(vpn, spaces[cur].pageTable[vpn].(dirty := false, valid := false));
    }

    method SetEntry(vpn: nat, e: Entry)
      requires Wired() && cur < |spaces| && vpn < |spaces[cur].pageTable|
      modifies this`spaces
      ensures S() == SetPte(old(S()), vpn, e)
    {
      var space := spaces[cur];
      spaces := spaces[cur := space.(pageTable := space.pageTable[vpn := e])];
    }

    // ---------- demand loading ----------

    /** Copies the code that belongs in page `vpn` to the start of a zeroed frame. */
    method CopyCode(dirPhy: nat, vpn: nat, exe: Executable, ghost before: seq<byte>) returns (bytesCode: nat)
      requires dirPhy + PAGE_SIZE <= mainMemory.Length == |before|
      requires mainMemory[..] == Splice(before, dirPhy, Padded([]))
      modifies mainMemory
      ensures bytesCode == |CodePart(exe, vpn)|
      ensures mainMemory[..] == Splice(before, dirPhy, Padded(CodePart(exe, vpn)))
    {
      hide Splice, Padded;
      var dirVir, codeSize := vpn * PAGE_SIZE, |exe.code|;
      bytesCode := 0;
      if codeSize > 0 && dirVir < codeSize {
        bytesCode := codeSize - dirVir;
        if PAGE_SIZE < bytesCode {
          bytesCode := PAGE_SIZE;
        }
        var block := exe.code[dirVir..dirVir + bytesCode];
        assert block == CodePart(exe, vpn);
        assert [] + block == block;
        CopyBehind(dirPhy, before, [], 0, block);
      }
    }

    /** Copies the initialised data that belongs in page `vpn` behind its code. */
    method CopyData(dirPhy: nat, vpn: nat, exe: Executable, bytesCode: nat, ghost before: seq<byte>)
      requires LayoutOk(exe) && dirPhy + PAGE_SIZE <= mainMemory.Length == |before|
      requires bytesCode == |CodePart(exe, vpn)|
      requires mainMemory[..] == Splice(before, dirPhy, Padded(CodePart(exe, vpn)))
      modifies mainMemory
      ensures mainMemory[..] == Splice(before, dirPhy, DemandPage(exe, vpn))
    {
      hide Splice, Padded;
      var dirVir, initDataSize := vpn * PAGE_SIZE, |exe.data|;
      ghost var code := CodePart(exe, vpn);
      if initDataSize > 0 && dirVir + bytesCode < exe.dataAddr + initDataSize && bytesCode < PAGE_SIZE {
        var offset := if bytesCode > 0 then 0 else dirVir - |exe.code|;
        var bytesData;
        if initDataSize - offset < PAGE_SIZE - bytesCode {
          bytesData := initDataSize - offset;
        } else {
          bytesData := PAGE_SIZE - bytesCode;
        }
        var block := exe.data[offset..offset + bytesData];
        assert block == DataPart(exe, vpn, bytesCode);
        CopyBehind(dirPhy, before, code, bytesCode, block);
      }
      PaddedParts(exe, vpn);
    }

    /** Zeroes the frame, then reads the page from swap or from the program file. */
    method FillFrame(frame: nat, vpn: nat)
      requires Wired() && frame < NUM_PHYS_PAGES
      requires cur < |spaces| && SpaceShape(spaces[cur]) && vpn < |spaces[cur].pageTable|
      modifies mainMemory
      ensures mainMemory[..] == PutFrame(old(mainMemory[..]), frame, Backing(spaces[cur], vpn))
    {
      ghost var before := mainMemory[..];
      var dirPhy := frame * PAGE_SIZE;
      CopyIn(dirPhy, Padded([]));
      var space := spaces[cur];
      if space.swapMap[vpn] {
        var r := FileReadAt(space.swap, vpn * PAGE_SIZE, PAGE_SIZE);
        CopyIn(dirPhy, r);
        AppendToPage(before, dirPhy, [], r);
      } else {
        var bytesCode := CopyCode(dirPhy, vpn, space.exe, before);
        CopyData(dirPhy, vpn, space.exe, bytesCode, before);
      }
    }

    /** A frame for page `vpn` when none is free: evict a victim and claim its frame. */
    method SustitucionEnSwapDeMarcoVictima(vpn: nat) returns (foreign: bool, frame: nat, ghost evicted: State)
      requires Valid() && ReadyToLoad(S(), vpn)
      requires Full(S())
      modifies Repr()
      ensures Wired()
      ensures foreign ==> Inv(S()) && SameViews(old(S()), S()) && cur == old(cur) && Crowded(S())
      ensures !foreign ==> CanLoad(old(S()), evicted, frame, vpn) && S() == Claim(evicted, frame, vpn)
      ensures !policy.Random? ==> (foreign <==> Stops(policy, old(S()), vpn))
      ensures foreign ==> Stops(policy, old(S()), vpn)
      ensures !policy.Random? && !foreign ==>
        && frame == VictimOf(policy, old(S())) && evicted.hand == (frame + 1) % NUM_PHYS_PAGES
        && evicted.slot == old(S()).slot && Drops(old(S()).tlb, evicted.tlb, frame, TLB_SIZE)
    {
      hide Inv, InvBut, SameViews, FlagsOnly, View, PageOf, TlbFind, TlbFindFrame, ClockChoice, Drops, VictimOf,
        CanLoad, Evict;
      ghost var s := S();
      foreign, frame := PickVictim();
      ghost var picked := S();
      FlagsKeepInvariant(s, picked);
      FlagsKeepReady(s, picked, vpn);
      evicted := picked;
      if foreign || coremap.addrSpaces[frame] != cur {
        assert !foreign ==> S().owner[frame] != S().cur;
        foreign := true;
        return;
      }
      ReadyAfterEviction(s, picked, frame, vpn);
      EvictDrops(s, picked, frame);
      EscribirFrameenSwap(frame);
      evicted := S();
      coremap.Mark(frame, cur, vpn);
    }

    /**
     Brings page `vpn` into a frame.  Stops with `foreign` set, before any damage,
     if the policy turns to a frame that belongs to another address space.
     */
    method LoadPage(vpn: nat) returns (foreign: bool)
      requires Valid() && ReadyToLoad(S(), vpn)
      modifies Repr()
      ensures Valid() && SameViews(old(S()), S()) && cur == old(cur)
      ensures foreign ==> Crowded(S())
      ensures !foreign ==>
        vpn < |spaces[cur].pageTable| && spaces[cur].pageTable[vpn].valid && TlbFind(tlb[..], vpn) == TLB_SIZE
      ensures !Full(old(S())) ==>
        !foreign && S().tlb == old(S()).tlb && S().slot == old(S()).slot && Settles(old(S()), S(), vpn)
      ensures foreign ==> Stops(policy, old(S()), vpn)
      ensures !policy.Random? && Stops(policy, old(S()), vpn) ==> foreign
      ensures !policy.Random? && !foreign && Full(old(S())) ==> Vacated(policy, old(S()), S(), vpn)
    {
      hide PteOk, CleanOk, SlotOk, FrameOk, NoDuplicates, TlbFind, ClockChoice, Crowded, Drops, SameViews, FirstClear;
      ghost var s := S();
      ghost var e := s;
      foreign := false;
      var frame := coremap.Find(cur, vpn);
      if frame != -1 {
        assert S() == Claim(s, frame, vpn);
        FreeFrameIsUnmapped(s, frame);
      } else {
        assert S() == s;
        foreign, frame, e := SustitucionEnSwapDeMarcoVictima(vpn);
        if foreign {
          return;
        }
      }
      FillFrame(frame, vpn);
      SetEntry(vpn, spaces[cur].pageTable[vpn].(physicalPage := frame, valid := true));
      assert S() == LoadInto(e, frame, vpn);
      LoadKeepsInvariant(e, frame, vpn);
      SameViewsCompose(s, e, S());
      AbsentPageIsUncached(e, frame, vpn);
    }

    /** Writes the next slot back if it is valid and gives it to page `vpn`. */
    method RefillTlb(vpn: nat)
      requires Wired() && Shape(S()) && vpn < |spaces[cur].pageTable|
      requires tlb[index].valid ==> tlb[index].virtualPage < |spaces[cur].pageTable|
      modifies tlb, this`spaces, this`index
      ensures S() == Refill(old(S()), vpn)
    {
      if tlb[index].valid {
        SetEntry(tlb[index].virtualPage, tlb[index]);
      }
      tlb[index] := spaces[cur].pageTable[vpn];
      index := (index + 1) % TLB_SIZE;
    }

    /** The page-fault handler: load the page if it is absent, then replace a TLB slot. */
    method PageFault(badVAddr: nat) returns (foreign: bool)
      requires Valid() && badVAddr < NumPages(S(), cur) * PAGE_SIZE
      requires TlbFind(tlb[..], badVAddr / PAGE_SIZE) == TLB_SIZE
      modifies Repr()
      ensures Valid() && SameViews(old(S()), S()) && cur == old(cur)
      ensures if foreign then Crowded(S()) else TlbFind(tlb[..], badVAddr / PAGE_SIZE) < TLB_SIZE
      ensures Roomy(old(S()), badVAddr / PAGE_SIZE) ==>
        && !foreign && Brought(old(S()), S(), badVAddr / PAGE_SIZE) && Settles(old(S()), S(), badVAddr / PAGE_SIZE)
      ensures foreign ==> Stops(policy, old(S()), badVAddr / PAGE_SIZE)
      ensures !policy.Random? && Stops(policy, old(S()), badVAddr / PAGE_SIZE) ==> foreign
      ensures !policy.Random? && !foreign ==> Shifted(old(S()), S(), badVAddr / PAGE_SIZE)
    {
      hide PteOk, CleanOk, SlotOk, FrameOk, NoDuplicates, TlbFind, SameViews, Refill, Full, Brought, Crowded, Shifted,
        Vacated, VictimOf;
      ghost var s := S();
      var vpn := badVAddr / PAGE_SIZE;
      foreign := false;
      if !spaces[cur].pageTable[vpn].valid {
        foreign := LoadPage(vpn);
        if foreign {
          return;
        }
      }
      ghost var loaded := S();
      RefillKeepsInvariant(loaded, vpn);
      RefillTlb(vpn);
      SameViewsCompose(s, loaded, S());
      RefillBrings(s, loaded, vpn);
      if !policy.Random? {
        RefillShifts(policy, s, loaded, vpn);
      }
    }

    // ---------- context switch ----------

    /** Saves the flags of every cached page and empties the TLB. */
    method SaveState()
      requires Valid()
      modifies tlb, this`spaces
      ensures Valid() && SameViews(old(S()), S()) && cur == old(cur) && TlbEmpty(S()) && SameShelf(old(S()), S())
      ensures BitsSaved(old(S()), S(), TLB_SIZE)
    {
      ghost var s := S();
      var i := 0;
      while i < TLB_SIZE
        invariant 0 <= i <= TLB_SIZE && Valid() && SameViews(s, S()) && cur == s.cur && SameShelf(s, S())
        invariant forall j :: 0 <= j < i ==> !tlb[j].valid
        invariant BitsSaved(s, S(), i) && forall j :: i <= j < TLB_SIZE ==> tlb[j] == s.tlb[j]
      {
        ghost var t := S();
        SaveSlotKeepsInvariant(t, i);
        if tlb[i].valid {
          var vpn := tlb[i].virtualPage;
          SetEntry(vpn, spaces[cur].pageTable[vpn].(dirty := tlb[i].dirty, use := tlb[i].use));
          tlb[i] := tlb[i].(valid := false);
        }
        assert S() == SaveSlot(t, i);
        SameViewsCompose(s, t, S());
        SavesOneMore(s, t, i);
        i := i + 1;
      }
    }

    /** Empties the TLB; harmless only because it was saved. */
    method RestoreState()
      requires Valid() && TlbEmpty(S())
      modifies tlb
      ensures S() == old(S())
    {
      var i := 0;
      while i < TLB_SIZE
        invariant 0 <= i <= TLB_SIZE
        invariant tlb[..] == old(tlb[..])
      {
        tlb[i] := tlb[i].(valid := false);
        i := i + 1;
      }
    }

    /** The address-space half of `Scheduler::Run`. */
    method ContextSwitch(next: nat)
      requires Valid() && next < |spaces|
      modifies tlb, this`spaces, this`cur
      ensures Valid() && SameViews(old(S()), S()) && cur == next && SameShelf(old(S()), S())
    {
      ghost var s := S();
      SaveState();
      ghost var t := S();
      SwitchKeepsInvariant(t, next);
      cur := next;
      SameViewsCompose(s, t, S());
      RestoreState();
    }

    // ---------- the machine's memory interface ----------

    /**
     `Machine::ReadMem`: on a page fault the handler runs and the caller has to try again;
     a misaligned address is an address error and changes nothing.
     */
    method ReadMem(addr: nat, size: nat) returns (ok: bool, value: int, foreign: bool)
      requires Valid() && AccessSize(size) && (Aligned(addr, size) ==> addr + size <= |View(S(), cur)|)
      modifies Repr()
      ensures Valid() && SameViews(old(S()), S()) && cur == old(cur)
      ensures ok ==> !foreign && addr + size <= |View(S(), cur)| && value == Load(View(S(), cur), addr, size)
      ensures ok ==> SameTags(old(tlb[..]), tlb[..]) && index == old(index) && SameShelf(old(S()), S())
      ensures Aligned(addr, size) && !ok && Roomy(old(S()), addr / PAGE_SIZE) ==>
        && !foreign && Brought(old(S()), S(), addr / PAGE_SIZE) && Settles(old(S()), S(), addr / PAGE_SIZE)
      ensures foreign ==> Aligned(addr, size) && Stops(policy, old(S()), addr / PAGE_SIZE)
      ensures !policy.Random? && Aligned(addr, size) && Stops(policy, old(S()), addr / PAGE_SIZE) ==> foreign
      ensures !policy.Random? && Aligned(addr, size) && !ok && !foreign ==> Shifted(old(S()), S(), addr / PAGE_SIZE)
      ensures ok <==> Aligned(addr, size) && TlbFind(old(tlb[..]), addr / PAGE_SIZE) < TLB_SIZE
      ensures !Aligned(addr, size) ==> !foreign && S() == old(S())
      ensures Aligned(addr, size) && !ok && !foreign ==> TlbFind(tlb[..], addr / PAGE_SIZE) < TLB_SIZE
      ensures foreign ==> Crowded(S())
    {
      hide PteOk, CleanOk, SlotOk, FrameOk, NoDuplicates, TlbFind, SameViews, Full, Brought, Crowded, Shifted, Settles,
        Roomy, Stops, Load;
      StopsMisses(policy, S(), addr / PAGE_SIZE);
      var e;
      e, value := MmuReadMem(addr, size);
      foreign := false;
      ok := e == NoException;
      if e == PageFaultException {
        foreign := PageFault(addr);
      }
    }

    /** `Machine::WriteMem`. */
    method WriteMem(addr: nat, size: nat, value: int) returns (ok: bool, foreign: bool)
      requires Valid() && AccessSize(size) && (Aligned(addr, size) ==> addr + size <= |View(S(), cur)|)
      modifies Repr()
      ensures Valid() && cur == old(cur) && |spaces| == old(|spaces|)
      ensures ok <==> Aligned(addr, size) && TlbFind(old(tlb[..]), addr / PAGE_SIZE) < TLB_SIZE
      ensures !ok ==> SameViews(old(S()), S())
      ensures Aligned(addr, size) && !ok && Roomy(old(S()), addr / PAGE_SIZE) ==>
        && !foreign && Brought(old(S()), S(), addr / PAGE_SIZE) && Settles(old(S()), S(), addr / PAGE_SIZE)
      ensures foreign ==> Aligned(addr, size) && Stops(policy, old(S()), addr / PAGE_SIZE)
      ensures !policy.Random? && Aligned(addr, size) && Stops(policy, old(S()), addr / PAGE_SIZE) ==> foreign
      ensures !policy.Random? && Aligned(addr, size) && !ok && !foreign ==> Shifted(old(S()), S(), addr / PAGE_SIZE)
      ensures !Aligned(addr, size) ==> !foreign && S() == old(S())
      ensures Aligned(addr, size) && !ok && !foreign ==> TlbFind(tlb[..], addr / PAGE_SIZE) < TLB_SIZE
      ensures foreign ==> Crowded(S())
      ensures ok ==>
        && !foreign && addr + size <= |View(old(S()), cur)|
        && View(S(), cur) == Store(View(old(S()), cur), addr, size, value)
        && forall i :: 0 <= i < |spaces| && i != cur ==> View(S(), i) == View(old(S()), i)
    {
      hide PteOk, CleanOk, SlotOk, FrameOk, NoDuplicates, TlbFind, Full, Brought, Crowded, Shifted, Settles, Roomy,
        Stops, Store;
      StopsMisses(policy, S(), addr / PAGE_SIZE);
      var e := MmuWriteMem(addr, size, value);
      foreign := false;
      ok := e == NoException;
      if e == PageFaultException {
        foreign := PageFault(addr);
      }
    }
  }
}
