/**
 The processor on top of the kernel: every fetch, load and store goes through the TLB,
 and the page faults are the kernel's.  Whole programs run as on flat memory.
 */
module Processors {
  import opened Numbers
  import opened Options
  import opened Multiplication
  import F = FlatMemory
  import opened Vm
  import opened PagingInvariant
  import K = Kernels
  import opened FlatMachine
  import opened UserRuns
  import opened Transfer
  import M = Mips
  import opened Restarts
  import RestartExact
  import RestartTable

  // ---------- memory accesses ----------

  /** Those of the first `pages` pages that the TLB has. */
  ghost function Present(tlb: seq<Entry>, pages: nat): set<nat> {
    set v: nat | 0 <= v < pages && TlbFind(tlb, v) < TLB_SIZE
  }

  /** What the processor can reach without a fault. */
  ghost function Reach(k: K.Kernel): set<nat>
    requires k.Valid()
    reads k.Repr()
  {
    Present(k.tlb[..], |User(k)| / F.PAGE_SIZE)
  }

  /** How an access ended; `Beyond` the address space, `Stuck` in an eviction across address spaces. */
  datatype Access = Hit | Misaligned | Miss | Beyond | Stuck

  /** The access ended as the processor's model says for these pages within reach. */
  ghost predicate Agrees(a: Access, mem: M.Memory, present: set<nat>, addr: Word, size: nat) {
    match a
    case Hit => M.Translate(mem, present, addr, size) == M.Fine
    case Misaligned => M.Translate(mem, present, addr, size) == M.Fails(M.AddressError)
    case Beyond => M.Translate(mem, Pages(mem), addr, size) == M.Fails(M.PageFault)
    case _ => M.Translate(mem, present, addr, size) == M.Fails(M.PageFault)
  }

  function Ended(ok: bool, foreign: bool, aligned: bool): Access {
    if ok then Hit else if !aligned then Misaligned else if foreign then Stuck else Miss
  }

  /** The TLB decides as the model's translation does. */
  lemma EndedAgrees(tlb: seq<Entry>, mem: M.Memory, addr: Word, size: nat, ok: bool, foreign: bool)
    requires M.MemoryOk(mem) && F.AccessSize(size) && (F.Aligned(addr, size) ==> addr + size <= |mem|)
    requires ok <==> F.Aligned(addr, size) && TlbFind(tlb, addr / F.PAGE_SIZE) < TLB_SIZE
    ensures Agrees(Ended(ok, foreign, F.Aligned(addr, size)), mem, Present(tlb, |mem| / F.PAGE_SIZE), addr, size)
  {
    hide TlbFind, F.Aligned;
    if F.Aligned(addr, size) {
      InsideIsPage(|mem|, addr, size);
    }
  }

  lemma InsideIsPage(length: nat, addr: nat, size: nat)
    requires size > 0 && length % F.PAGE_SIZE == 0 && addr + size <= length
    ensures addr / F.PAGE_SIZE < length / F.PAGE_SIZE
  {
  }

  lemma PageIsInside(length: nat, addr: nat, size: nat)
    requires F.AccessSize(size) && F.Aligned(addr, size) && length % F.PAGE_SIZE == 0
      && addr / F.PAGE_SIZE < length / F.PAGE_SIZE
    ensures addr + size <= length
  {
    F.WithinPage(addr, size);
    M.PageEnd(length, addr / F.PAGE_SIZE);
  }

  /** A program's memory is whole pages, as many as its page table has. */
  lemma WholePages(k: K.Kernel)
    requires k.Valid()
    ensures k.cur < |k.spaces| && M.MemoryOk(User(k)) && |User(k)| / F.PAGE_SIZE == |k.spaces[k.cur].pageTable|
  {
  }

  /** All programs together have no more pages than there are frames. */
  ghost predicate Spacious(k: K.Kernel)
    requires k.Valid()
    reads k.Repr()
  {
    Ample(FlatOf(k.S()), MEMORY_SIZE)
  }

  lemma ReachesSame(tlb: seq<Entry>, tlb': seq<Entry>, pages: nat)
    requires K.SameTags(tlb, tlb')
    ensures Present(tlb', pages) == Present(tlb, pages)
  {
    hide TlbFind;
    forall v: nat
      ensures TlbFind(tlb', v) == TlbFind(tlb, v)
    {
      SameTagsSameSlot(tlb', tlb, v);
    }
  }

  /**
   The fault at `addr` was answered by bringing in its page, with `room` without an eviction; `steady`
   policies keep moving on.
   */
  ghost predicate Brings(room: bool, steady: bool, s: State, s': State, mem: M.Memory, addr: Word) {
    && addr / F.PAGE_SIZE < |mem| / F.PAGE_SIZE
    && (room ==> K.Brought(s, s', addr / F.PAGE_SIZE)) && (steady ==> K.Shifted(s, s', addr / F.PAGE_SIZE))
  }

  lemma HasRoom(k: K.Kernel, v: nat)
    requires k.Valid() && Spacious(k) && v < |User(k)| / F.PAGE_SIZE
    ensures K.Roomy(k.S(), v)
  {
    AmpleHasRoom(k.S(), v);
  }

  method LoadFrom(k: K.Kernel, addr: Word, size: nat, ghost f: Flat, ghost mem: M.Memory)
    returns (a: Access, value: int)
    requires UserIs(k, f, mem) && M.MemoryOk(mem) && F.AccessSize(size)
    modifies k.Repr()
    ensures UserIs(k, f, mem) && Agrees(a, mem, old(Reach(k)), addr, size)
    ensures a == Stuck ==> Crowded(k.S())
    ensures a == Hit ==> addr + size <= |mem| && value == F.Load(mem, addr, size) && Reach(k) == old(Reach(k))
    ensures a == Hit ==> K.SameTags(old(k.tlb[..]), k.tlb[..]) && k.index == old(k.index) && k.victim == old(k.victim)
    ensures a == Miss ==> Brings(old(Spacious(k)), !k.policy.Random?, old(k.S()), k.S(), mem, addr)
    ensures old(Spacious(k)) ==> a != Stuck
  {
    hide InvBut, FlatOf, User, Crowded, F.Load, Ample, K.Roomy, K.Brought, K.Shifted, K.SameTags, TlbFind;
    WholePages(k);
    if F.Aligned(addr, size) {
      if addr / F.PAGE_SIZE >= |k.spaces[k.cur].pageTable| {
        return Beyond, 0;
      }
      PageIsInside(|mem|, addr, size);
      if Spacious(k) {
        HasRoom(k, addr / F.PAGE_SIZE);
      }
    }
    var ok, foreign;
    ok, value, foreign := ReadOnce(k, addr, size);
    EndedAgrees(old(k.tlb[..]), mem, addr, size, ok, foreign);
    a := Ended(ok, foreign, F.Aligned(addr, size));
    if ok {
      ReachesSame(old(k.tlb[..]), k.tlb[..], |mem| / F.PAGE_SIZE);
    }
  }

  method StoreTo(k: K.Kernel, addr: Word, size: nat, value: int, ghost f: Flat, ghost mem: M.Memory)
    returns (a: Access, ghost mem': M.Memory)
    requires UserIs(k, f, mem) && M.MemoryOk(mem) && F.AccessSize(size)
    modifies k.Repr()
    ensures UserIs(k, f, mem') && Agrees(a, mem, old(Reach(k)), addr, size)
    ensures a == Stuck ==> Crowded(k.S())
    ensures if a == Hit then addr + size <= |mem| && mem' == F.Store(mem, addr, size, value) else mem' == mem
    ensures a == Miss ==> Brings(old(Spacious(k)), !k.policy.Random?, old(k.S()), k.S(), mem, addr)
    ensures old(Spacious(k)) ==> a != Stuck
  {
    hide InvBut, FlatOf, User, Crowded, F.Store, Ample, K.Roomy, K.Brought, K.Shifted, K.SameTags, TlbFind;
    WholePages(k);
    mem' := mem;
    if F.Aligned(addr, size) {
      if addr / F.PAGE_SIZE >= |k.spaces[k.cur].pageTable| {
        return Beyond, mem;
      }
      PageIsInside(|mem|, addr, size);
      if Spacious(k) {
        HasRoom(k, addr / F.PAGE_SIZE);
      }
    }
    var ok, foreign := WriteOnce(k, addr, size, value);
    EndedAgrees(old(k.tlb[..]), mem, addr, size, ok, foreign);
    a := Ended(ok, foreign, F.Aligned(addr, size));
    if ok {
      mem' := F.Store(mem, addr, size, value);
    }
  }

  // ---------- one instruction ----------

  /** Every frame is in use, at least one by another space. */
  ghost predicate AllTaken(k: K.Kernel)
    reads k.Repr()
  {
    k.Valid() && Crowded(k.S())
  }

  /** How a pass of the machine loop ended; memory is the kernel's. */
  datatype Pass =
    | Completed(r: M.Registers)
    | Trap(e: M.Exception, r: M.Registers)   // any exception but a page fault
    | Missed(r: M.Registers)                 // a page fault, dealt with
    | Crashed                                // an assertion of the simulator
    | Outside                                // an access beyond the address space
    | Jammed                                 // an eviction across address spaces

  /** The pass ended as outcome `o` says, and left memory `mem'` where there was `mem`. */
  ghost predicate Reports(p: Pass, mem': M.Memory, o: M.Outcome, mem: M.Memory) {
    match p
    case Completed(r) => o == M.Done(r, mem')
    case Trap(e, r) => o == M.Trapped(e, r, mem') && mem' == mem
    case Missed(r) => o == M.Faulted(r) && mem' == mem
    case Crashed => o == M.Aborted && mem' == mem
    case _ => mem' == mem
  }

  function Failed(a: Access, r: M.Registers, bad: Word): Pass
    requires M.WellFormed(r)
  {
    match a
    case Misaligned => Trap(M.AddressError, M.Raised(r, bad))
    case Beyond => Outside
    case Stuck => Jammed
    case _ => Missed(M.Raised(r, bad))
  }

  /** The address an action goes to. */
  function Touched(a: M.Action): Option<Word> {
    if a.Loads? || a.Stores? || a.Merges? then Some(a.addr) else None
  }

  lemma MissedPage(mem: M.Memory, present: set<nat>, addr: Word, size: nat)
    requires M.Translate(mem, present, addr, size) == M.Fails(M.PageFault) && addr / F.PAGE_SIZE < |mem| / F.PAGE_SIZE
    ensures addr / F.PAGE_SIZE !in present
  {
  }

  /** A fault at `addr`, out of reach before, was answered by bringing in its page. */
  ghost predicate Answers(addr: Option<Word>, room: bool, steady: bool, s: State, s': State, mem: M.Memory,
                          present: set<nat>) {
    addr.Some? && Brings(room, steady, s, s', mem, addr.value) && addr.value / F.PAGE_SIZE !in present
  }

  /** `ExecInstruction` over the TLB. */
  method Execute(k: K.Kernel, r: M.Registers, i: M.Instr, ghost f: Flat, ghost mem: M.Memory)
    returns (p: Pass, ghost mem': M.Memory)
    requires UserIs(k, f, mem) && M.MemoryOk(mem) && M.WellFormed(r)
    modifies k.Repr()
    ensures UserIs(k, f, mem') && |mem'| == |mem| && Reports(p, mem', M.Exec(r, mem, old(Reach(k)), i), mem)
    ensures (p.Jammed? ==> AllTaken(k)) && (p.Completed? ==> M.WellFormed(p.r))
    ensures p.Outside? ==> M.Exec(r, mem, Pages(mem), i).Faulted?
    ensures old(Spacious(k)) ==> !p.Jammed?
    ensures p.Missed? ==>
      Answers(Touched(M.Issue(r, i)), old(Spacious(k)), !k.policy.Random?, old(k.S()), k.S(), mem, old(Reach(k)))
  {
    hide InvBut, FlatOf, User, Crowded, Reach, Pages, M.Compute, M.Finish, M.Apply, M.Raised, M.Loaded, M.Merged,
      F.Load, F.Store, M.Translate,
      M.Bypass, M.Plus4, Spacious, K.SameTags, Brings;
    mem' := mem;
    var pc := M.Plus4(r[M.NEXT_PC]);
    match M.Issue(r, i)
    case Plain(w, pcAfter) => p := Completed(M.Finish(M.Apply(r, w), 0, 0, pcAfter));
    case Raises(e, bad) => p := Trap(e, M.Raised(r, bad));
    case Aborts => p := Crashed;
    case Loads(addr, size) =>
      var a, value := LoadFrom(k, addr, size, f, mem);
      Unreached(a, old(Spacious(k)), !k.policy.Random?, old(k.S()), k.S(), mem, old(Reach(k)), addr, size);
      p := if a == Hit then Completed(M.Finish(r, i.rt, M.Loaded(i.op, value, M.Bypass(r, i.rt)), pc))
        else Failed(a, r, addr);
    case Stores(addr, size, value) =>
      var a;
      a, mem' := StoreTo(k, addr, size, value, f, mem);
      Unreached(a, old(Spacious(k)), !k.policy.Random?, old(k.S()), k.S(), mem, old(Reach(k)), addr, size);
      p := if a == Hit then Completed(M.Finish(r, 0, 0, pc)) else Failed(a, r, addr);
    case Merges(addr) =>
      var a, value := LoadFrom(k, addr, 4, f, mem);
      Unreached(a, old(Spacious(k)), !k.policy.Random?, old(k.S()), k.S(), mem, old(Reach(k)), addr, 4);
      if a == Hit {
        a, mem' := StoreTo(k, addr, 4, M.Merged(i.op, value, r[i.rt]), f, mem);
      }
      p := if a == Hit then Completed(M.Finish(r, 0, 0, pc)) else Failed(a, r, addr);
  }

  lemma Unreached(a: Access, room: bool, steady: bool, s: State, s': State, mem: M.Memory, present: set<nat>,
                  addr: Word, size: nat)
    requires Agrees(a, mem, present, addr, size)
    ensures a == Miss && Brings(room, steady, s, s', mem, addr) ==>
      Answers(Some(addr), room, steady, s, s', mem, present)
  {
    if a == Miss && Brings(room, steady, s, s', mem, addr) {
      MissedPage(mem, present, addr, size);
    }
  }

  /** The pages that an instruction needs: its own, and that of its data. */
  function Needs(r: M.Registers, mem: M.Memory, decode: Word -> M.Instr): set<nat>
    requires M.WellFormed(r) && M.MemoryOk(mem)
  {
    {r[M.PC] / F.PAGE_SIZE} + DataPages(r, Current(r, mem, decode))
  }

  function DataPages(r: M.Registers, current: Option<M.Instr>): set<nat>
    requires M.WellFormed(r)
  {
    if current == None then {}
    else
      var addr := Touched(M.Issue(r, current.value));
      if addr == None then {} else {addr.value / F.PAGE_SIZE}
  }

  /**
   Page `v`, one that was needed and out of reach, has got the next TLB slot; the other slots hold the
   pages they held.
   */
  ghost predicate Gained(tlb: seq<Entry>, slot: nat, tlb': seq<Entry>, slot': nat, v: nat) {
    && |tlb| == |tlb'| == TLB_SIZE && slot < TLB_SIZE && slot' == (slot + 1) % TLB_SIZE && Maps(tlb'[slot], v)
    && forall j :: 0 <= j < TLB_SIZE && j != slot ==>
         tlb'[j].valid == tlb[j].valid && tlb'[j].virtualPage == tlb[j].virtualPage
  }

  /** From state `s` on, page `v` was brought in. */
  ghost predicate Moved(room: bool, steady: bool, s: State, s': State, v: nat) {
    (room ==> Gained(s.tlb, s.slot, s'.tlb, s'.slot, v)) && (steady ==> K.Shifted(s, s', v))
  }

  lemma MovedFrom(room: bool, steady: bool, s0: State, s: State, s': State, v: nat)
    requires K.SameTags(s0.tlb, s.tlb) && s0.slot == s.slot && s0.hand == s.hand
    requires (room ==> K.Brought(s, s', v)) && (steady ==> K.Shifted(s, s', v))
    ensures Moved(room, steady, s0, s', v)
  {
  }

  /** One pass of the machine loop; `page` is the one it missed, if any. */
  method OnePass(k: K.Kernel, r: M.Registers, decode: Word -> M.Instr, ghost f: Flat, ghost mem: M.Memory)
    returns (p: Pass, ghost mem': M.Memory, ghost page: nat)
    requires UserIs(k, f, mem) && M.MemoryOk(mem) && M.WellFormed(r)
    modifies k.Repr()
    ensures UserIs(k, f, mem') && |mem'| == |mem| && Reports(p, mem', M.Attempt(r, mem, old(Reach(k)), decode), mem)
    ensures (p.Jammed? ==> AllTaken(k)) && (p.Completed? ==> M.WellFormed(p.r))
    ensures p.Outside? ==> M.Attempt(r, mem, Pages(mem), decode).Faulted?
    ensures old(Spacious(k)) ==> !p.Jammed?
    ensures p.Missed? ==>
      && page in Needs(r, mem, decode) && page < |mem| / F.PAGE_SIZE && page !in old(Reach(k))
      && Moved(old(Spacious(k)), !k.policy.Random?, old(k.S()), k.S(), page)
  {
    hide InvBut, FlatOf, User, Crowded, Reach, Pages, M.Exec, M.Raised, F.Load, M.Translate, Spacious, M.Issue,
      K.SameTags, K.Brought,
      K.Shifted, Moved, Ample;
    StaysSpacious(k, WithUser(f, mem));
    ghost var s0, room, steady := k.S(), Ample(WithUser(f, mem), MEMORY_SIZE), !k.policy.Random?;
    var a, raw := LoadFrom(k, r[M.PC], 4, f, mem);
    page := r[M.PC] / F.PAGE_SIZE;
    Unreached(a, room, steady, s0, k.S(), mem, old(Reach(k)), r[M.PC], 4);
    if a == Hit {
      MoreReach(mem, Reach(k), r[M.PC], 4);
      StaysSpacious(k, WithUser(f, mem));
      var i := decode(M.Wrap(raw));
      ghost var s := k.S();
      p, mem' := Execute(k, r, i, f, mem);
      if p.Missed? {
        page := Touched(M.Issue(r, i)).value / F.PAGE_SIZE;
        MovedFrom(room, steady, s0, s, k.S(), page);
      }
    } else {
      p, mem' := Failed(a, r, r[M.PC]), mem;
      if p.Missed? {
        SameTagsSelf(s0.tlb);
        MovedFrom(room, steady, s0, s0, k.S(), page);
      }
    }
  }

  lemma SameTagsSelf(tlb: seq<Entry>)
    ensures K.SameTags(tlb, tlb)
  {
  }

  lemma StaysSpacious(k: K.Kernel, f: Flat)
    requires k.Valid() && FlatOf(k.S()) == f
    ensures Spacious(k) == Ample(f, MEMORY_SIZE)
  {
  }

  lemma MoreReach(mem: M.Memory, present: set<nat>, addr: Word, size: nat)
    requires M.Translate(mem, present, addr, size) == M.Fine
    ensures M.Translate(mem, Pages(mem), addr, size) == M.Fine
  {
    assert IsPage(mem, addr / F.PAGE_SIZE);
  }

  /** One more pass after a fault. */
  lemma {:induction false} RetriedMore(r: M.Registers, mem: M.Memory, presents: seq<set<nat>>, decode: Word -> M.Instr,
                                       present: set<nat>)
    requires M.WellFormed(r) && M.MemoryOk(mem)
    requires var o := Retried(r, mem, presents, decode); o.Some? && o.value.Faulted?
    ensures
      var r' := Retried(r, mem, presents, decode).value.r;
      && Settled(r, r')
      && Retried(r, mem, presents + [present], decode) == Some(M.Attempt(r', mem, present, decode))
    decreases |presents|
  {
    hide M.Attempt, Settled;
    FaultSettles(r, mem, presents[0], decode);
    var r1, rest := M.Attempt(r, mem, presents[0], decode).r, presents[1..];
    assert (presents + [present])[1..] == rest + [present];
    if |presents| > 1 {
      RetriedMore(r1, mem, rest, decode, present);
      SettledChain(r, r1, Retried(r1, mem, rest, decode).value.r);
    } else {
      assert rest + [present] == [present];
      assert Retried(r1, mem, [present], decode) == Some(M.Attempt(r1, mem, present, decode));
    }
  }

  lemma SettledChain(a: M.Registers, b: M.Registers, c: M.Registers)
    requires Settled(a, b) && Settled(b, c)
    ensures Settled(a, c)
  {
  }

  /** The instruction faults with every page present, as it is or after its faults have settled the delayed load. */
  ghost predicate Lost(r: M.Registers, mem: M.Memory, decode: Word -> M.Instr)
    requires M.WellFormed(r) && M.MemoryOk(mem)
  {
    || M.Attempt(r, mem, Pages(mem), decode).Faulted?
    || exists r' :: Settled(r, r') && M.Attempt(r', mem, Pages(mem), decode).Faulted?
  }

  /** What the passes of one instruction tell, with the pages within reach at each of them. */
  ghost predicate Tells(p: Pass, mem': M.Memory, r: M.Registers, mem: M.Memory, presents: seq<set<nat>>,
                        decode: Word -> M.Instr)
    requires M.WellFormed(r) && M.MemoryOk(mem)
  {
    if p.Outside? then mem' == mem && Lost(r, mem, decode)
    else
      var o := Retried(r, mem, presents, decode);
      o.Some? && Reports(p, mem', o.value, mem)
  }

  // ---------- no instruction faults for ever ----------

  /**
   After `misses` faults in a row: the last two pages are still in the TLB, and from the second one on
   they are of those needed.
   */
  ghost predicate Nearing(tlb: seq<Entry>, slot: nat, pages: nat, misses: nat, last: nat, before: nat,
                          needs: set<nat>) {
    && |tlb| == TLB_SIZE && slot < TLB_SIZE && 1 <= misses <= 3
    && Maps(tlb[(slot + TLB_SIZE - 1) % TLB_SIZE], last) && last < pages
    && (misses >= 2 ==>
      Maps(tlb[(slot + TLB_SIZE - 2) % TLB_SIZE], before) && before < pages && last != before && last in needs)
    && (misses >= 3 ==> before in needs)
  }

  lemma MappedIsPresent(tlb: seq<Entry>, pages: nat, j: nat, v: nat)
    requires |tlb| == TLB_SIZE && j < TLB_SIZE && Maps(tlb[j], v) && v < pages
    ensures v in Present(tlb, pages)
  {
  }

  /** An instruction needs two pages, so that a fourth fault cannot come. */
  lemma NearingMore(tlb: seq<Entry>, slot: nat, tlb': seq<Entry>, slot': nat, pages: nat, misses: nat, last: nat,
                    before: nat,
                    needs: set<nat>, page: nat, c: nat, d: nat)
    requires Nearing(tlb, slot, pages, misses, last, before, needs) && Gained(tlb, slot, tlb', slot', page)
    requires page in needs && page < pages && page !in Present(tlb, pages) && needs <= {c, d}
    ensures misses < 3 && Nearing(tlb', slot', pages, misses + 1, page, last, needs)
  {
    hide Present;
    SlotsBehind(slot, slot');
    MappedIsPresent(tlb, pages, (slot + TLB_SIZE - 1) % TLB_SIZE, last);
    if misses >= 2 {
      MappedIsPresent(tlb, pages, (slot + TLB_SIZE - 2) % TLB_SIZE, before);
    }
  }

  lemma SlotsBehind(slot: nat, slot': nat)
    requires slot < TLB_SIZE && slot' == (slot + 1) % TLB_SIZE
    ensures (slot' + TLB_SIZE - 1) % TLB_SIZE == slot
      && (slot' + TLB_SIZE - 2) % TLB_SIZE == (slot + TLB_SIZE - 1) % TLB_SIZE != slot
  {
  }

  lemma NearingOnce(tlb: seq<Entry>, slot: nat, tlb': seq<Entry>, slot': nat, pages: nat, needs: set<nat>, page: nat)
    requires Gained(tlb, slot, tlb', slot', page) && page < pages
    ensures Nearing(tlb', slot', pages, 1, page, page, needs)
  {
    SlotsBehind(slot, slot');
  }

  lemma NeedsTwo(r: M.Registers, mem: M.Memory, decode: Word -> M.Instr) returns (c: nat, d: nat)
    requires M.WellFormed(r) && M.MemoryOk(mem)
    ensures Needs(r, mem, decode) <= {c, d}
  {
    hide M.Issue, Current;
    c := r[M.PC] / F.PAGE_SIZE;
    d := c;
    var current := Current(r, mem, decode);
    if current.Some? && Touched(M.Issue(r, current.value)).Some? {
      d := Touched(M.Issue(r, current.value)).value / F.PAGE_SIZE;
    }
  }

  /** Once the delayed load is done, faults do not change what the instruction needs. */
  lemma NeedsStay(r: M.Registers, r': M.Registers, mem: M.Memory, decode: Word -> M.Instr)
    requires Settled(r, r') && r[M.LOAD] == 0 && M.MemoryOk(mem)
    ensures Needs(r', mem, decode) == Needs(r, mem, decode)
  {
    hide M.Issue, Current;
    SameInstruction(r, r', mem, decode);
    var current := Current(r, mem, decode);
    if current.Some? {
      SettledAgrees(r, r', current.value);
      M.IssueAgrees(r, r', current.value);
    }
  }

  lemma SettledLoad(r: M.Registers, r': M.Registers)
    requires Settled(r, r')
    ensures M.WellFormed(r') && r'[M.LOAD] == 0
  {
  }

  // ---------- the same with evictions ----------

  /** Two pages that are needed are in the last two slots. */
  ghost predicate Both(s: State, pages: nat, last: nat, before: nat, needs: set<nat>)
    requires |s.tlb| == TLB_SIZE && s.slot < TLB_SIZE
  {
    Maps(s.tlb[(s.slot + TLB_SIZE - 2) % TLB_SIZE], before) && before < pages && last != before && before in needs
  }

  /** The hand is right behind the frame of the last page, which is safe for the next eviction. */
  ghost predicate Guarded(s: State)
    requires |s.tlb| == TLB_SIZE && s.slot < TLB_SIZE
  {
    s.hand == (s.tlb[(s.slot + TLB_SIZE - 1) % TLB_SIZE].physicalPage + 1) % NUM_PHYS_PAGES
  }

  /**
   After `misses` faults in a row, with a policy that moves on: from the second one on the last
   page is of those needed; the third either kept the second, or has thrown it out and is
   safe itself; so the fourth keeps the third.
   */
  ghost predicate Closing(s: State, pages: nat, misses: nat, last: nat, before: nat, needs: set<nat>) {
    && |s.tlb| == TLB_SIZE && s.slot < TLB_SIZE && 1 <= misses <= 4
    && Maps(s.tlb[(s.slot + TLB_SIZE - 1) % TLB_SIZE], last) && last < pages
    && (misses >= 2 ==> last in needs)
    && (misses == 3 ==> Both(s, pages, last, before, needs) || Guarded(s))
    && (misses == 4 ==> Both(s, pages, last, before, needs))
  }

  lemma ClosingMore(s: State, s': State, pages: nat, misses: nat, last: nat, before: nat, needs: set<nat>, page: nat,
                    c: nat, d: nat)
    requires Closing(s, pages, misses, last, before, needs) && K.Shifted(s, s', page) && needs <= {c, d}
    requires page in needs && page < pages && page !in Present(s.tlb, pages)
    requires forall j :: 0 <= j < TLB_SIZE && s.tlb[j].valid ==> s.tlb[j].physicalPage < NUM_PHYS_PAGES
    ensures misses < 4 && Closing(s', pages, misses + 1, page, last, needs)
  {
    hide Present;
    SlotsBehind(s.slot, s'.slot);
    MappedIsPresent(s.tlb, pages, (s.slot + TLB_SIZE - 1) % TLB_SIZE, last);
    if misses >= 3 && Both(s, pages, last, before, needs) {
      MappedIsPresent(s.tlb, pages, (s.slot + TLB_SIZE - 2) % TLB_SIZE, before);
      assert false;
    }
  }

  lemma ClosingOnce(s: State, s': State, pages: nat, needs: set<nat>, page: nat)
    requires K.Shifted(s, s', page) && page < pages
    ensures Closing(s', pages, 1, page, page, needs)
  {
    SlotsBehind(s.slot, s'.slot);
  }

  lemma FramesInRange(s: State)
    requires Inv(s)
    ensures forall j :: 0 <= j < TLB_SIZE && s.tlb[j].valid ==> s.tlb[j].physicalPage < NUM_PHYS_PAGES
  {
    forall j | 0 <= j < TLB_SIZE && s.tlb[j].valid
      ensures s.tlb[j].physicalPage < NUM_PHYS_PAGES
    {
      CachedPage(s, j);
    }
  }

  // ---------- passes in a row ----------

  /** How the kernel stands after `misses` faults of one instruction. */
  ghost predicate Hopeful(k: K.Kernel, room: bool, r: M.Registers, mem: M.Memory, decode: Word -> M.Instr,
                          misses: nat, last: nat, before: nat)
    reads k.Repr()
  {
    && k.Wired() && M.WellFormed(r) && r[M.LOAD] == 0 && M.MemoryOk(mem)
    && var pages, needs := |mem| / F.PAGE_SIZE, Needs(r, mem, decode);
       && (room ==> Nearing(k.tlb[..], k.index, pages, misses, last, before, needs))
       && (!k.policy.Random? ==> Closing(k.S(), pages, misses, last, before, needs))
  }

  lemma HopefulMore(room: bool, steady: bool, s: State, s': State, pages: nat, misses: nat, last: nat, before: nat,
                    needs: set<nat>, page: nat, c: nat, d: nat)
    requires Inv(s) && Moved(room, steady, s, s', page) && needs <= {c, d}
    requires room ==> Nearing(s.tlb, s.slot, pages, misses, last, before, needs)
    requires steady ==> Closing(s, pages, misses, last, before, needs)
    requires page in needs && page < pages && page !in Present(s.tlb, pages)
    ensures room ==> Nearing(s'.tlb, s'.slot, pages, misses + 1, page, last, needs)
    ensures steady ==> Closing(s', pages, misses + 1, page, last, needs)
  {
    hide InvBut, Present, Nearing, Closing, Gained, K.Shifted;
    if room {
      NearingMore(s.tlb, s.slot, s'.tlb, s'.slot, pages, misses, last, before, needs, page, c, d);
    }
    if steady {
      FramesInRange(s);
      ClosingMore(s, s', pages, misses, last, before, needs, page, c, d);
    }
  }

  lemma HopefulOnce(room: bool, steady: bool, s: State, s': State, pages: nat, needs: set<nat>, page: nat)
    requires Moved(room, steady, s, s', page) && page < pages
    ensures room ==> Nearing(s'.tlb, s'.slot, pages, 1, page, page, needs)
    ensures steady ==> Closing(s', pages, 1, page, page, needs)
  {
    hide Nearing, Closing, Gained, K.Shifted;
    if room {
      NearingOnce(s.tlb, s.slot, s'.tlb, s'.slot, pages, needs, page);
    }
    if steady {
      ClosingOnce(s, s', pages, needs, page);
    }
  }

  /** One more pass of the machine loop after a fault. */
  method PassAgain(k: K.Kernel, r: M.Registers, decode: Word -> M.Instr, ghost f: Flat, ghost mem: M.Memory,
                   ghost misses: nat, ghost last: nat, ghost before: nat)
    returns (p: Pass, ghost mem': M.Memory, ghost page: nat)
    requires UserIs(k, f, mem) && M.MemoryOk(mem) && M.WellFormed(r)
    requires Hopeful(k, Spacious(k), r, mem, decode, misses, last, before)
    modifies k.Repr()
    ensures UserIs(k, f, mem') && |mem'| == |mem| && Reports(p, mem', M.Attempt(r, mem, old(Reach(k)), decode), mem)
    ensures (p.Jammed? ==> AllTaken(k)) && (p.Completed? ==> M.WellFormed(p.r))
    ensures p.Outside? ==> M.Attempt(r, mem, Pages(mem), decode).Faulted?
    ensures old(Spacious(k)) ==> !p.Jammed?
    ensures p.Missed? ==> Hopeful(k, old(Spacious(k)), p.r, mem, decode, misses + 1, page, last)
  {
    hide InvBut, FlatOf, User, Crowded, Pages, M.Attempt, Spacious, Moved, Nearing, Closing, Needs, Present, Settled,
      M.WellFormed;
    ghost var s, room := k.S(), Spacious(k);
    p, mem', page := OnePass(k, r, decode, f, mem);
    if p.Missed? {
      var c, d := NeedsTwo(r, mem, decode);
      HopefulMore(room, !k.policy.Random?, s, k.S(), |mem| / F.PAGE_SIZE, misses, last, before, Needs(r, mem, decode),
        page, c, d);
      MissSettles(r, p.r, mem, old(Reach(k)), decode);
      NeedsStay(r, p.r, mem, decode);
    }
  }

  method FirstPass(k: K.Kernel, r: M.Registers, decode: Word -> M.Instr, ghost f: Flat, ghost mem: M.Memory)
    returns (p: Pass, ghost mem': M.Memory, ghost page: nat)
    requires UserIs(k, f, mem) && M.MemoryOk(mem) && M.WellFormed(r)
    modifies k.Repr()
    ensures UserIs(k, f, mem') && |mem'| == |mem| && Reports(p, mem', M.Attempt(r, mem, old(Reach(k)), decode), mem)
    ensures (p.Jammed? ==> AllTaken(k)) && (p.Completed? ==> M.WellFormed(p.r))
    ensures p.Outside? ==> M.Attempt(r, mem, Pages(mem), decode).Faulted?
    ensures old(Spacious(k)) ==> !p.Jammed?
    ensures p.Missed? ==> Hopeful(k, old(Spacious(k)), p.r, mem, decode, 1, page, page)
  {
    hide InvBut, FlatOf, User, Crowded, Pages, M.Attempt, Spacious, Moved, Nearing, Closing, Needs, Present, Settled,
      M.WellFormed;
    ghost var s, room := k.S(), Spacious(k);
    p, mem', page := OnePass(k, r, decode, f, mem);
    if p.Missed? {
      MissSettles(r, p.r, mem, old(Reach(k)), decode);
      HopefulOnce(room, !k.policy.Random?, s, k.S(), |mem| / F.PAGE_SIZE, Needs(p.r, mem, decode), page);
    }
  }

  lemma MissSettles(r: M.Registers, r': M.Registers, mem: M.Memory, present: set<nat>, decode: Word -> M.Instr)
    requires M.WellFormed(r) && M.MemoryOk(mem) && M.Attempt(r, mem, present, decode) == M.Faulted(r')
    ensures Settled(r, r') && M.WellFormed(r') && r'[M.LOAD] == 0
  {
    hide M.Attempt;
    FaultSettles(r, mem, present, decode);
    SettledLoad(r, r');
  }

  /**
   One instruction: passes until it does not fault, at most `tries` times again.  Three are
   always enough if the programs fit into memory together, and four with FIFO or the clock.
   */
  method Instruction(k: K.Kernel, r: M.Registers, decode: Word -> M.Instr, tries: nat, ghost f: Flat,
                     ghost mem: M.Memory)
    returns (p: Pass, ghost mem': M.Memory, ghost presents: seq<set<nat>>)
    requires UserIs(k, f, mem) && M.MemoryOk(mem) && M.WellFormed(r)
    modifies k.Repr()
    ensures UserIs(k, f, mem') && |mem'| == |mem| && (p.Completed? ==> M.WellFormed(p.r))
    ensures if p.Jammed? then mem' == mem && AllTaken(k) else Tells(p, mem', r, mem, presents, decode)
    ensures old(Spacious(k)) ==> !p.Jammed? && (p.Missed? ==> tries < 3)
    ensures !k.policy.Random? && p.Missed? ==> tries < 4
  {
    hide InvBut, FlatOf, User, Crowded, Reach, Pages, M.Attempt, Retried, Settled, Needs, Nearing, Closing, Spacious,
      M.WellFormed, Ample;
    StaysSpacious(k, WithUser(f, mem));
    ghost var present, room := Reach(k), Ample(WithUser(f, mem), MEMORY_SIZE);
    ghost var last;
    p, mem', last := FirstPass(k, r, decode, f, mem);
    ghost var before := last;
    presents := [present];
    RetriedOnce(r, mem, present, decode);
    var left := tries;
    while p.Missed? && left > 0
      invariant UserIs(k, f, mem') && |mem'| == |mem| && (p.Completed? ==> M.WellFormed(p.r))
      invariant if p.Jammed? then mem' == mem && AllTaken(k) else Tells(p, mem', r, mem, presents, decode)
      invariant left <= tries
      invariant room ==> !p.Jammed?
      invariant p.Missed? ==> Hopeful(k, room, p.r, mem, decode, tries - left + 1, last, before)
      decreases left
    {
      present := Reach(k);
      RetriedMore(r, mem, presents, decode, present);
      SettledLoad(r, p.r);
      StaysSpacious(k, WithUser(f, mem));
      ghost var was := last;
      p, mem', last := PassAgain(k, p.r, decode, f, mem, tries - left + 1, last, before);
      before := was;
      presents := presents + [present];
      left := left - 1;
    }
    if p.Missed? {
      AtMostFour(k, room, p.r, mem, decode, tries - left + 1, last, before);
    }
  }

  lemma AtMostFour(k: K.Kernel, room: bool, r: M.Registers, mem: M.Memory, decode: Word -> M.Instr,
                   misses: nat, last: nat, before: nat)
    requires Hopeful(k, room, r, mem, decode, misses, last, before)
    ensures (room ==> misses <= 3) && (!k.policy.Random? ==> misses <= 4)
  {
  }

  lemma RetriedOnce(r: M.Registers, mem: M.Memory, present: set<nat>, decode: Word -> M.Instr)
    requires M.WellFormed(r) && M.MemoryOk(mem)
    ensures Retried(r, mem, [present], decode) == Some(M.Attempt(r, mem, present, decode))
  {
  }

  // ---------- registers that a program cannot tell apart ----------

  lemma FinishSame(r1: M.Registers, r2: M.Registers, w: M.Writes, nextReg: M.Reg, v1: Word, v2: Word, pc: Word)
    requires M.WellFormed(r1) && M.WellFormed(r2) && Same(r1, r2) && (w.One? ==> w.r <= M.LO)
      && (nextReg == 0 || v1 == v2)
    ensures Same(M.Finish(M.Apply(r1, w), nextReg, v1, pc), M.Finish(M.Apply(r2, w), nextReg, v2, pc))
  {
  }

  lemma RaisedSame(r1: M.Registers, r2: M.Registers, bad: Word)
    requires M.WellFormed(r1) && M.WellFormed(r2) && Same(r1, r2)
    ensures Same(M.Raised(r1, bad), M.Raised(r2, bad))
  {
  }

  lemma BypassSame(r1: M.Registers, r2: M.Registers, rt: M.Reg)
    requires M.WellFormed(r1) && M.WellFormed(r2) && Same(r1, r2) && rt != 0
    ensures M.Bypass(r1, rt) == M.Bypass(r2, rt)
  {
  }

  lemma LoadSame(r1: M.Registers, r2: M.Registers, i: M.Instr, value: int, pc: Word)
    requires M.WellFormed(r1) && M.WellFormed(r2) && Same(r1, r2)
    ensures Same(M.Finish(r1, i.rt, M.Loaded(i.op, value, M.Bypass(r1, i.rt)), pc),
                 M.Finish(r2, i.rt, M.Loaded(i.op, value, M.Bypass(r2, i.rt)), pc))
  {
    hide M.Loaded, M.Bypass, Same, M.Finish;
    if i.rt != 0 {
      BypassSame(r1, r2, i.rt);
    }
    FinishSame(r1, r2, M.Nothing, i.rt, M.Loaded(i.op, value, M.Bypass(r1, i.rt)),
      M.Loaded(i.op, value, M.Bypass(r2, i.rt)), pc);
  }

  lemma IssueSame(r1: M.Registers, r2: M.Registers, i: M.Instr)
    requires M.WellFormed(r1) && M.WellFormed(r2) && Same(r1, r2)
    ensures M.Issue(r1, i) == M.Issue(r2, i) && r1[i.rt] == r2[i.rt] && r1[M.NEXT_PC] == r2[M.NEXT_PC]
  {
  }

  lemma ExecSame(r1: M.Registers, r2: M.Registers, mem: M.Memory, present: set<nat>, i: M.Instr)
    requires M.WellFormed(r1) && M.WellFormed(r2) && Same(r1, r2) && M.MemoryOk(mem)
    ensures SameOutcome(M.Exec(r1, mem, present, i), M.Exec(r2, mem, present, i))
  {
    hide M.Compute, M.Finish, M.Raised, Same, M.Loaded, M.Merged, M.Translate, F.Load, F.Store, M.Bypass, M.Plus4,
      M.Apply;
    IssueSame(r1, r2, i);
    var pc := M.Plus4(r1[M.NEXT_PC]);
    match M.Issue(r1, i)
    case Plain(w, pcAfter) => FinishSame(r1, r2, w, 0, 0, 0, pcAfter);
    case Raises(_, bad) => RaisedSame(r1, r2, bad);
    case Aborts =>
    case Loads(addr, size) =>
      RaisedSame(r1, r2, addr);
      if M.Translate(mem, present, addr, size) == M.Fine {
        M.FineIsInside(mem, present, addr, size);
        LoadSame(r1, r2, i, F.Load(mem, addr, size), pc);
      }
    case Stores(addr, _, _) =>
      RaisedSame(r1, r2, addr);
      StoreSame(r1, r2, pc);
    case Merges(addr) =>
      RaisedSame(r1, r2, addr);
      StoreSame(r1, r2, pc);
  }

  lemma StoreSame(r1: M.Registers, r2: M.Registers, pc: Word)
    requires M.WellFormed(r1) && M.WellFormed(r2) && Same(r1, r2)
    ensures Same(M.Finish(r1, 0, 0, pc), M.Finish(r2, 0, 0, pc))
  {
  }

  /** Registers that differ only where no program can look make no difference. */
  lemma AttemptSame(r1: M.Registers, r2: M.Registers, mem: M.Memory, present: set<nat>, decode: Word -> M.Instr)
    requires M.WellFormed(r1) && M.WellFormed(r2) && Same(r1, r2) && M.MemoryOk(mem)
    ensures SameOutcome(M.Attempt(r1, mem, present, decode), M.Attempt(r2, mem, present, decode))
  {
    hide M.Exec, M.Raised, M.Translate, F.Load, M.Wrap;
    assert r1[M.PC] == r2[M.PC];
    RaisedSame(r1, r2, r1[M.PC]);
    if M.Translate(mem, present, r1[M.PC], 4) == M.Fine {
      M.FineIsInside(mem, present, r1[M.PC], 4);
      ExecSame(r1, r2, mem, present, decode(M.Wrap(F.Load(mem, r1[M.PC], 4))));
    }
  }

  // ---------- whole programs ----------

  /** The next instruction, if there is one, can be restarted behind the pending load. */
  predicate Calm(r: M.Registers, mem: M.Memory, decode: Word -> M.Instr)
    requires M.WellFormed(r) && M.MemoryOk(mem)
  {
    var i := Current(r, mem, decode);
    i.Some? && r[M.LOAD] != 0 ==> RestartTable.Harmless(i.value, r[M.LOAD])
  }

  /** Only the instruction at `PC` is ever decoded. */
  lemma AttemptDecodes(r: M.Registers, mem: M.Memory, present: set<nat>, decode: Word -> M.Instr, i: M.Instr)
    requires M.WellFormed(r) && M.MemoryOk(mem) && Current(r, mem, decode) == Some(i)
    ensures M.Attempt(r, mem, present, decode) == M.Attempt(r, mem, present, _ => i)
  {
    hide M.Exec, M.Raised, F.Load, M.Wrap;
  }

  lemma {:induction false} RetriedDecodes(r: M.Registers, mem: M.Memory, presents: seq<set<nat>>,
                                          decode: Word -> M.Instr, i: M.Instr)
    requires M.WellFormed(r) && M.MemoryOk(mem) && Current(r, mem, decode) == Some(i)
    ensures Retried(r, mem, presents, decode) == Retried(r, mem, presents, _ => i)
    decreases |presents|
  {
    if presents != [] {
      hide M.Attempt, Current;
      AttemptDecodes(r, mem, presents[0], decode, i);
      var o := M.Attempt(r, mem, presents[0], decode);
      if |presents| > 1 && o.Faulted? {
        FaultSettles(r, mem, presents[0], decode);
        SameInstruction(r, o.r, mem, decode);
        RetriedDecodes(o.r, mem, presents[1..], decode, i);
      }
    }
  }

  lemma SameInstruction(r: M.Registers, r': M.Registers, mem: M.Memory, decode: Word -> M.Instr)
    requires Settled(r, r') && M.MemoryOk(mem)
    ensures Current(r', mem, decode) == Current(r, mem, decode)
  {
    assert r'[M.PC] == r[M.PC];
  }

  /** A calm instruction ends as on flat memory, however often it faults. */
  lemma CalmIsTransparent(r: M.Registers, mem: M.Memory, presents: seq<set<nat>>, decode: Word -> M.Instr)
    requires M.WellFormed(r) && M.MemoryOk(mem) && Calm(r, mem, decode)
    ensures
      var o := Retried(r, mem, presents, decode);
      o.Some? && !o.value.Faulted? ==> SameOutcome(M.Attempt(r, mem, Pages(mem), decode), o.value)
  {
    hide M.Attempt, Retried, RestartTable.Harmless, SameOutcome;
    var current := Current(r, mem, decode);
    if current.Some? && r[M.LOAD] != 0 {
      var i := current.value;
      RestartTable.RestartIsNeverSeen(i, r[M.LOAD]);
      assert RestartExact.NotSeen(i, r, mem, presents);
      RetriedDecodes(r, mem, presents, decode, i);
      AttemptDecodes(r, mem, Pages(mem), decode, i);
    } else {
      RestartIsTransparent(r, mem, presents, decode);
    }
  }

  /** The registers with which an instruction starts: an interrupt in front of it has done the pending load. */
  function Entered(r: M.Registers, interrupted: bool): (r': M.Registers)
    requires M.WellFormed(r)
    ensures M.WellFormed(r') && (if interrupted then Settled(r, r') else r' == r)
  {
    if interrupted then RestartExact.Settle(r) else r
  }

  /** The same behind an interrupt, which settles the load as a fault does. */
  lemma CalmAfterInterrupt(r: M.Registers, r': M.Registers, mem: M.Memory, presents: seq<set<nat>>,
                           decode: Word -> M.Instr)
    requires M.WellFormed(r) && M.MemoryOk(mem) && Calm(r, mem, decode) && Settled(r, r')
    ensures
      var o := Retried(r', mem, presents, decode);
      o.Some? && !o.value.Faulted? ==> SameOutcome(M.Attempt(r, mem, Pages(mem), decode), o.value)
  {
    hide M.Attempt, Retried, RestartTable.Harmless, SameOutcome;
    var current, o := Current(r, mem, decode), Retried(r', mem, presents, decode);
    if current.Some? && r[M.LOAD] != 0 {
      var i := current.value;
      RestartTable.RestartIsNeverSeen(i, r[M.LOAD]);
      RestartExact.NeverSeenIsTransparent(i, r[M.LOAD]);
      assert RestartExact.Behind(r, mem, r[M.LOAD]);
      SameInstruction(r, r', mem, decode);
      RetriedDecodes(r', mem, presents, decode, i);
      AttemptDecodes(r, mem, Pages(mem), decode, i);
      if o.Some? && !o.value.Faulted? {
        var last := RestartExact.LastPass(r, r', mem, presents, i);
        RestartExact.LastPassSame(i, r, last, mem);
      }
    } else {
      RetriedSettled(r, r', mem, presents, decode);
    }
  }

  lemma DoneIsWellFormed(r: M.Registers, mem: M.Memory, present: set<nat>, decode: Word -> M.Instr)
    requires M.WellFormed(r) && M.MemoryOk(mem)
    ensures var o := M.Attempt(r, mem, present, decode); o.Done? ==> M.WellFormed(o.r) && |o.mem| == |mem|
  {
    hide M.Compute, M.Finish, M.Apply, M.Raised, M.Loaded, M.Merged, F.Load, M.Translate, M.Bypass, M.Plus4;
  }

  /** `n` instructions on flat memory, or up to the first that does not complete. */
  function FlatRun(r: M.Registers, mem: M.Memory, decode: Word -> M.Instr, n: nat): (o: M.Outcome)
    requires M.WellFormed(r) && M.MemoryOk(mem)
    ensures o.Done? ==> M.WellFormed(o.r) && |o.mem| == |mem|
  {
    if n == 0 then M.Done(r, mem)
    else
      var o := FlatRun(r, mem, decode, n - 1);
      if o.Done? then
        DoneIsWellFormed(o.r, o.mem, Pages(o.mem), decode);
        M.Attempt(o.r, o.mem, Pages(o.mem), decode)
      else o
  }

  /** Every instruction that the flat run comes to is calm. */
  ghost predicate CalmRun(r: M.Registers, mem: M.Memory, decode: Word -> M.Instr, n: nat)
    requires M.WellFormed(r) && M.MemoryOk(mem)
  {
    forall j: nat :: j < n && FlatRun(r, mem, decode, j).Done? ==>
      Calm(FlatRun(r, mem, decode, j).r, FlatRun(r, mem, decode, j).mem, decode)
  }

  /** A pass that ended the instruction, as an outcome. */
  function AsOutcome(p: Pass, mem: M.Memory): M.Outcome {
    match p
    case Completed(r) => M.Done(r, mem)
    case Trap(e, r) => M.Trapped(e, r, mem)
    case Missed(r) => M.Faulted(r)
    case _ => M.Aborted
  }

  predicate Final(p: Pass) {
    p.Completed? || p.Trap? || p.Crashed?
  }

  /** Where a memory instruction goes does not depend on what it stores. */
  lemma AddressOnly(i: M.Instr, a: Word, b: Word, b': Word, hi: Word, lo: Word, next: Word)
    requires RestartExact.MemoryOp(i.op)
    ensures
      var c, c' := M.Compute(i, a, b, hi, lo, next), M.Compute(i, a, b', hi, lo, next);
      && Touched(c) == Touched(c') && (c.Loads? <==> c'.Loads?) && (c.Stores? <==> c'.Stores?)
      && (c.Loads? || c.Stores? ==> c.size == c'.size)
  {
  }

  lemma SameAddressFaults(i: M.Instr, r: M.Registers, r': M.Registers, mem: M.Memory)
    requires M.WellFormed(r) && Settled(r, r') && M.MemoryOk(mem) && RestartExact.MemoryOp(i.op) && r'[i.rs] == r[i.rs]
    ensures M.Exec(r', mem, Pages(mem), i).Faulted? <==> M.Exec(r, mem, Pages(mem), i).Faulted?
  {
    hide M.Compute, M.Finish, M.Apply, M.Raised, M.Loaded, M.Merged, F.Load, F.Store, M.Translate, M.Bypass, M.Plus4,
      Pages;
    assert r'[M.HI] == r[M.HI] && r'[M.LO] == r[M.LO] && r'[M.NEXT_PC] == r[M.NEXT_PC];
    AddressOnly(i, r[i.rs], r[i.rt], r'[i.rt], r[M.HI], r[M.LO], r[M.NEXT_PC]);
  }

  lemma NeverFaults(i: M.Instr, r: M.Registers, mem: M.Memory)
    requires M.WellFormed(r) && M.MemoryOk(mem) && !RestartExact.MemoryOp(i.op)
    ensures !M.Exec(r, mem, Pages(mem), i).Faulted?
  {
    hide M.Compute, M.Finish, M.Apply, M.Raised;
    RestartExact.RegisterOnly(i, r[i.rs], r[i.rt], r[M.HI], r[M.LO], r[M.NEXT_PC]);
  }

  /** A calm instruction that goes outside after its faults would have done so at once. */
  lemma CalmIsLostAtOnce(r: M.Registers, mem: M.Memory, decode: Word -> M.Instr)
    requires M.WellFormed(r) && M.MemoryOk(mem) && Calm(r, mem, decode) && Lost(r, mem, decode)
    ensures M.Attempt(r, mem, Pages(mem), decode).Faulted?
  {
    if !M.Attempt(r, mem, Pages(mem), decode).Faulted? {
      hide M.Exec, M.Translate, F.Load;
      var r' :| Settled(r, r') && M.Attempt(r', mem, Pages(mem), decode).Faulted?;
      SameInstruction(r, r', mem, decode);
      assert r'[M.PC] == r[M.PC];
      var i := Current(r, mem, decode).value;
      if RestartExact.MemoryOp(i.op) {
        assert r'[i.rs] == r[i.rs];
        SameAddressFaults(i, r, r', mem);
      } else {
        NeverFaults(i, r', mem);
      }
    }
  }

  lemma OneMoreIsLost(r0: M.Registers, mem0: M.Memory, decode: Word -> M.Instr, j: nat, r: M.Registers, mem: M.Memory)
    requires M.WellFormed(r0) && M.MemoryOk(mem0) && M.WellFormed(r) && M.MemoryOk(mem)
    requires SameOutcome(FlatRun(r0, mem0, decode, j), M.Done(r, mem)) && CalmRun(r0, mem0, decode, j + 1)
    requires Lost(r, mem, decode)
    ensures FlatRun(r0, mem0, decode, j + 1).Faulted?
  {
    hide M.Attempt, RestartTable.Harmless, Current, Same, Lost;
    var o := FlatRun(r0, mem0, decode, j);
    assert FlatRun(r0, mem0, decode, j + 1) == M.Attempt(o.r, o.mem, Pages(o.mem), decode);
    assert Calm(o.r, o.mem, decode);
    CalmSame(o.r, r, mem, decode);
    AttemptSame(o.r, r, mem, Pages(mem), decode);
    CalmIsLostAtOnce(r, mem, decode);
  }

  /** From registers a program cannot tell from the flat machine's, one more instruction leads to such registers. */
  lemma OneMore(r0: M.Registers, mem0: M.Memory, decode: Word -> M.Instr, j: nat, r: M.Registers, mem: M.Memory,
                interrupted: bool, p: Pass, mem': M.Memory, presents: seq<set<nat>>)
    requires M.WellFormed(r0) && M.MemoryOk(mem0) && M.WellFormed(r) && M.MemoryOk(mem)
    requires SameOutcome(FlatRun(r0, mem0, decode, j), M.Done(r, mem)) && CalmRun(r0, mem0, decode, j + 1)
    requires Final(p) && Tells(p, mem', Entered(r, interrupted), mem, presents, decode)
    ensures SameOutcome(FlatRun(r0, mem0, decode, j + 1), AsOutcome(p, mem'))
  {
    hide M.Attempt, Retried, RestartTable.Harmless, Current, Same;
    var o := FlatRun(r0, mem0, decode, j);
    assert FlatRun(r0, mem0, decode, j + 1) == M.Attempt(o.r, o.mem, Pages(o.mem), decode);
    assert Calm(o.r, o.mem, decode);
    CalmSame(o.r, r, mem, decode);
    AttemptSame(o.r, r, mem, Pages(mem), decode);
    if interrupted {
      CalmAfterInterrupt(r, Entered(r, interrupted), mem, presents, decode);
    } else {
      CalmIsTransparent(r, mem, presents, decode);
    }
    var flat, here, retried := M.Attempt(o.r, mem, Pages(mem), decode), M.Attempt(r, mem, Pages(mem), decode),
      AsOutcome(p, mem');
    assert Retried(Entered(r, interrupted), mem, presents, decode) == Some(retried);
    RestartExact.SameTransitive(flat, here, retried);
  }

  /** What goes outside behind an interrupt also does so without. */
  lemma LostAfterInterrupt(r: M.Registers, r': M.Registers, mem: M.Memory, decode: Word -> M.Instr)
    requires M.WellFormed(r) && M.MemoryOk(mem) && (r' == r || Settled(r, r')) && M.WellFormed(r')
      && Lost(r', mem, decode)
    ensures Lost(r, mem, decode)
  {
    hide M.Attempt;
    if r' != r && !M.Attempt(r', mem, Pages(mem), decode).Faulted? {
      var r'' :| Settled(r', r'') && M.Attempt(r'', mem, Pages(mem), decode).Faulted?;
      SettledChain(r, r', r'');
    }
  }

  lemma CalmSame(r1: M.Registers, r2: M.Registers, mem: M.Memory, decode: Word -> M.Instr)
    requires M.WellFormed(r1) && M.WellFormed(r2) && Same(r1, r2) && M.MemoryOk(mem) && Calm(r1, mem, decode)
    ensures Calm(r2, mem, decode)
  {
    hide RestartTable.Harmless;
    assert r1[M.PC] == r2[M.PC] && r1[M.LOAD] == r2[M.LOAD];
  }

  /** Storing into one memory does not change how much memory the programs need. */
  lemma StillFits(k: K.Kernel, f: Flat, mem: M.Memory)
    requires UserIs(k, f, mem) && |mem| == |f.memories[f.cur]| && Fits(f, MEMORY_SIZE)
    ensures !AllTaken(k)
  {
    var now := WithUser(f, mem);
    assert Sizes(now) == Sizes(f);
    FittingIsNotCrowded(k.S());
  }

  lemma StillAmple(k: K.Kernel, f: Flat, mem: M.Memory)
    requires UserIs(k, f, mem) && |mem| == |f.memories[f.cur]|
    ensures Spacious(k) == Ample(f, MEMORY_SIZE)
  {
    assert Sizes(WithUser(f, mem)) == Sizes(f);
  }

  /** How far the run has come: `done` instructions, with the same to show for it as on flat memory. */
  ghost predicate Keeps(k: K.Kernel, f: Flat, r0: M.Registers, decode: Word -> M.Instr, n: nat, r: M.Registers,
                        done: nat, mem: M.Memory)
    reads k.Repr()
  {
    && f.cur < |f.memories| && M.WellFormed(r0) && M.MemoryOk(f.memories[f.cur]) && done <= n
    && M.WellFormed(r) && UserIs(k, f, mem) && |mem| == |f.memories[f.cur]|
    && (CalmRun(r0, f.memories[f.cur], decode, n) ==>
         SameOutcome(FlatRun(r0, f.memories[f.cur], decode, done), M.Done(r, mem)))
  }

  lemma StartsUser(k: K.Kernel)
    requires k.Valid()
    ensures UserIs(k, Memories(k), User(k)) && Memories(k).memories[Memories(k).cur] == User(k)
  {
    assert WithUser(Memories(k), User(k)).memories == Memories(k).memories;
  }

  lemma FlatStart(r: M.Registers, mem: M.Memory, decode: Word -> M.Instr)
    requires M.WellFormed(r) && M.MemoryOk(mem)
    ensures SameOutcome(FlatRun(r, mem, decode, 0), M.Done(r, mem))
  {
  }

  lemma CalmPrefix(r: M.Registers, mem: M.Memory, decode: Word -> M.Instr, m: nat, n: nat)
    requires M.WellFormed(r) && M.MemoryOk(mem) && m <= n && CalmRun(r, mem, decode, n)
    ensures CalmRun(r, mem, decode, m)
  {
    hide FlatRun, Calm;
  }

  /**
   Any program, under any replacement policy and with interrupts between any instructions: as
   far as it comes, its registers and its memory are those of the flat machine, if every
   instruction it meets can be restarted behind the load before it; and the memories of the
   other programs are untouched.
   */
  method RunProgram(k: K.Kernel, r0: M.Registers, decode: Word -> M.Instr, interrupts: nat -> bool, n: nat, tries: nat)
    returns (r: M.Registers, p: Pass, done: nat)
    requires k.Valid() && M.WellFormed(r0)
    modifies k.Repr()
    ensures k.Valid() && FlatOf(k.S()) == WithUser(old(FlatOf(k.S())), User(k)) && M.MemoryOk(old(User(k)))
    ensures done <= n && (done == n || !p.Completed?)
    ensures CalmRun(r0, old(User(k)), decode, n) ==>
      && SameOutcome(FlatRun(r0, old(User(k)), decode, done), M.Done(r, User(k)))
      && (done < n && Final(p) ==> SameOutcome(FlatRun(r0, old(User(k)), decode, done + 1), AsOutcome(p, User(k))))
      && (done < n && p.Outside? ==> FlatRun(r0, old(User(k)), decode, done + 1).Faulted?)
    ensures p.Jammed? ==> Crowded(k.S())
    ensures Fits(old(FlatOf(k.S())), MEMORY_SIZE) ==> !p.Jammed?
    ensures Ample(old(FlatOf(k.S())), MEMORY_SIZE) && tries >= 3 ==> done == n || Final(p) || p.Outside?
    ensures !k.policy.Random? && tries >= 4 ==> done == n || Final(p) || p.Outside? || p.Jammed?
  {
    hide InvBut, FlatOf, User, Crowded, CalmRun, FlatRun, SameOutcome, Retried, Fits, Ample, Spacious, Lost;
    WholePages(k);
    ghost var f, mem := Memories(k), User(k);
    StartsUser(k);
    r, p, done := r0, Completed(r0), 0;
    FlatStart(r0, mem, decode);
    while done < n
      invariant Keeps(k, f, r0, decode, n, r, done, mem)
      invariant p.Completed?
    {
      StillAmple(k, f, mem);
      ghost var mem', presents;
      p, mem', presents := Instruction(k, Entered(r, interrupts(done)), decode, tries, f, mem);
      if CalmRun(r0, f.memories[f.cur], decode, n) && Final(p) {
        CalmPrefix(r0, f.memories[f.cur], decode, done + 1, n);
        OneMore(r0, f.memories[f.cur], decode, done, r, mem, interrupts(done), p, mem', presents);
      }
      if CalmRun(r0, f.memories[f.cur], decode, n) && p.Outside? {
        CalmPrefix(r0, f.memories[f.cur], decode, done + 1, n);
        LostAfterInterrupt(r, Entered(r, interrupts(done)), mem, decode);
        OneMoreIsLost(r0, f.memories[f.cur], decode, done, r, mem);
      }
      if !p.Completed? {
        if p.Jammed? && Fits(f, MEMORY_SIZE) {
          StillFits(k, f, mem');
        }
        return;
      }
      r, mem, done := p.r, mem', done + 1;
    }
  }
}
