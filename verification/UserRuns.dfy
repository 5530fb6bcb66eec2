/** What user programs should see: one flat memory per address space, and no paging. */
module FlatMachine {
  import opened Numbers
  import opened FlatMemory

  datatype Flat = Flat(memories: seq<seq<byte>>, cur: nat)

  /** A load, a store, or the scheduler dispatching another address space. */
  datatype Op = LoadOp(addr: nat, size: nat) | StoreOp(addr: nat, size: nat, value: int) | SwitchOp(next: nat)

  predicate InBounds(f: Flat, addr: nat, size: nat) {
    && f.cur < |f.memories|
    && AccessSize(size) && Aligned(addr, size) && addr + size <= |f.memories[f.cur]|
  }

  predicate OpOk(f: Flat, op: Op) {
    match op
    case LoadOp(addr, size) => InBounds(f, addr, size)
    case StoreOp(addr, size, _) => InBounds(f, addr, size)
    case SwitchOp(next) => next < |f.memories|
  }

  function Step(f: Flat, op: Op): Flat
    requires OpOk(f, op)
  {
    match op
    case LoadOp(_, _) => f
    case StoreOp(addr, size, value) =>
      f.(memories := f.memories[f.cur := Store(f.memories[f.cur], addr, size, value)])
    case SwitchOp(next) => f.(cur := next)
  }

  /** What the operation hands back to the program; stores and switches hand back nothing. */
  function Result(f: Flat, op: Op): seq<int>
    requires OpOk(f, op)
  {
    match op
    case LoadOp(addr, size) => [Load(f.memories[f.cur], addr, size)]
    case _ => []
  }

  predicate RunOk(f: Flat, ops: seq<Op>)
    decreases |ops|
  {
    ops == [] || (OpOk(f, ops[0]) && RunOk(Step(f, ops[0]), ops[1..]))
  }

  /** The memories after a run. */
  function After(f: Flat, ops: seq<Op>): Flat
    requires RunOk(f, ops)
    decreases |ops|
  {
    if ops == [] then f else After(Step(f, ops[0]), ops[1..])
  }

  /** All values a run loads, in order. */
  function Values(f: Flat, ops: seq<Op>): seq<int>
    requires RunOk(f, ops)
    decreases |ops|
  {
    if ops == [] then [] else Result(f, ops[0]) + Values(Step(f, ops[0]), ops[1..])
  }

  /** A run can be cut anywhere. */
  lemma {:induction false} RunSplit(f: Flat, a: seq<Op>, b: seq<Op>)
    requires RunOk(f, a + b)
    ensures RunOk(f, a) && RunOk(After(f, a), b)
    ensures After(f, a + b) == After(After(f, a), b)
    ensures Values(f, a + b) == Values(f, a) + Values(After(f, a), b)
    decreases |a|
  {
    hide Step, Result;
    if a == [] {
      assert a + b == b;
    } else {
      var f1 := Step(f, a[0]);
      assert (a + b)[1..] == a[1..] + b;
      RunSplit(f1, a[1..], b);
    }
  }

  /** What the next operation of a run adds. */
  lemma RunNext(f: Flat, ops: seq<Op>, n: nat)
    requires RunOk(f, ops) && n < |ops|
    ensures RunOk(f, ops[..n]) && RunOk(f, ops[..n + 1])
    ensures
      var g := After(f, ops[..n]);
      && OpOk(g, ops[n]) && After(f, ops[..n + 1]) == Step(g, ops[n])
      && Values(f, ops[..n + 1]) == Values(f, ops[..n]) + Result(g, ops[n])
  {
    hide Step, Result, OpOk;
    var prefix, op := ops[..n], ops[n];
    assert ops == ops[..n + 1] + ops[n + 1..];
    RunSplit(f, ops[..n + 1], ops[n + 1..]);
    assert ops[..n + 1] == prefix + [op];
    RunSplit(f, prefix, [op]);
    RunOne(After(f, prefix), op) by {
      assert RunOk(After(f, prefix), [op]);
    }
  }

  lemma RunNone(f: Flat, ops: seq<Op>)
    ensures RunOk(f, ops[..0]) && After(f, ops[..0]) == f && Values(f, ops[..0]) == [] && ops[..|ops|] == ops
  {
  }

  lemma RunOne(f: Flat, op: Op)
    requires OpOk(f, op)
    ensures RunOk(f, [op]) && After(f, [op]) == Step(f, op) && Values(f, [op]) == Result(f, op)
  {
    assert [op][1..] == [];
    assert Result(f, op) + [] == Result(f, op);
  }

  // ---------- what a load sees ----------

  /** No store of the run, made while space `i` is running, touches the given range of its memory. */
  predicate Spares(f: Flat, ops: seq<Op>, i: nat, addr: nat, size: nat)
    requires RunOk(f, ops)
    decreases |ops|
  {
    ops != [] ==>
      && (f.cur == i && ops[0].StoreOp? ==> ops[0].addr + ops[0].size <= addr || addr + size <= ops[0].addr)
      && Spares(Step(f, ops[0]), ops[1..], i, addr, size)
  }

  lemma {:induction false} KeptByRun(f: Flat, ops: seq<Op>, i: nat, addr: nat, size: nat)
    requires RunOk(f, ops) && i < |f.memories| && addr + size <= |f.memories[i]| && Spares(f, ops, i, addr, size)
    ensures var g := After(f, ops);
      && |g.memories| == |f.memories| && |g.memories[i]| == |f.memories[i]|
      && g.memories[i][addr..addr + size] == f.memories[i][addr..addr + size]
    decreases |ops|
  {
    if ops != [] {
      var op := ops[0];
      if op.StoreOp? && f.cur == i {
        StoreElsewhere(f.memories[i], op.addr, op.size, op.value, addr, size);
      }
      KeptByRun(Step(f, op), ops[1..], i, addr, size);
    }
  }

  /**
   A load returns the last value stored there by its own program, cut to the size and
   extended as the MMU does, whatever other programs store at the same address meanwhile.
   */
  lemma LoadSeesLastStore(f: Flat, addr: nat, size: nat, value: int, between: seq<Op>)
    requires OpOk(f, StoreOp(addr, size, value)) && RunOk(Step(f, StoreOp(addr, size, value)), between)
    requires Spares(Step(f, StoreOp(addr, size, value)), between, f.cur, addr, size)
    ensures
      var g := After(Step(f, StoreOp(addr, size, value)), between);
      && OpOk(g.(cur := f.cur), LoadOp(addr, size))
      && Result(g.(cur := f.cur), LoadOp(addr, size)) == [Extend(value % Pow256(size), size)]
  {
    StoreThenLoad(f.memories[f.cur], addr, size, value);
    KeptByRun(Step(f, StoreOp(addr, size, value)), between, f.cur, addr, size);
  }

  /** Byte loads inside a half word or word see its bytes, the least significant one first. */
  lemma LoadSeesByteOfStore(f: Flat, addr: nat, size: nat, value: int, between: seq<Op>, k: nat)
    requires OpOk(f, StoreOp(addr, size, value)) && RunOk(Step(f, StoreOp(addr, size, value)), between) && k < size
    requires Spares(Step(f, StoreOp(addr, size, value)), between, f.cur, addr, size)
    ensures
      var g := After(Step(f, StoreOp(addr, size, value)), between);
      var b: int := value / Pow256(k) % 256;
      && OpOk(g.(cur := f.cur), LoadOp(addr + k, 1))
      && Result(g.(cur := f.cur), LoadOp(addr + k, 1)) == [b - if b >= 0x80 then 0x100 else 0]
  {
    hide Load, Store;
    var m := f.memories[f.cur];
    ByteOfStore(m, addr, size, value, k);
    KeptByRun(Step(f, StoreOp(addr, size, value)), between, f.cur, addr, size);
    var g := After(Step(f, StoreOp(addr, size, value)), between);
    SameBytesSameLoad(g.memories[f.cur], Store(m, addr, size, value), addr, size, k);
  }

  lemma SameBytesSameLoad(m: seq<byte>, m': seq<byte>, addr: nat, size: nat, k: nat)
    requires addr + size <= |m| == |m'| && m[addr..addr + size] == m'[addr..addr + size] && k < size
    ensures Load(m, addr + k, 1) == Load(m', addr + k, 1)
  {
    assert m[addr + k] == m[addr..addr + size][k] == m'[addr..addr + size][k] == m'[addr + k];
    assert m[addr + k..addr + k + 1] == m'[addr + k..addr + k + 1];
  }

  // ---------- sizes ----------

  function Sizes(f: Flat): seq<nat> {
    seq(|f.memories|, i requires 0 <= i < |f.memories| => |f.memories[i]|)
  }

  lemma {:induction false} AfterKeepsSizes(f: Flat, ops: seq<Op>)
    requires RunOk(f, ops)
    ensures Sizes(After(f, ops)) == Sizes(f)
    decreases |ops|
  {
    if ops != [] {
      AfterKeepsSizes(Step(f, ops[0]), ops[1..]);
      assert Sizes(Step(f, ops[0])) == Sizes(f);
    }
  }

  /** One program alone, or all programs together no larger than `capacity`. */
  predicate Fits(f: Flat, capacity: nat) {
    |f.memories| == 1 || Ample(f, capacity)
  }

  predicate Ample(f: Flat, capacity: nat) {
    Sum(Sizes(f)) <= capacity
  }
}

/** The paged machine, driven by any program and any schedule, is the flat machine. */
module UserRuns {
  import opened Numbers
  import opened FlatMemory
  import opened FlatMachine
  import opened Vm
  import opened PagingInvariant
  import opened Capacity
  import opened Kernels

  /** All the flat memories that a paging state stands for. */
  ghost function FlatOf(s: State): Flat
    requires Shape(s)
  {
    Flat(seq(|s.spaces|, i requires 0 <= i < |s.spaces| => View(s, i)), s.cur)
  }

  lemma SameViewsSameFlat(s: State, s': State)
    requires SameViews(s, s')
    ensures FlatOf(s').memories == FlatOf(s).memories
  {
    SameViewsMeansSameMemory(s, s');
  }

  lemma {:induction false} SumOfMultiples(counts: seq<nat>, sizes: seq<nat>, d: nat)
    requires |counts| == |sizes| && forall i :: 0 <= i < |counts| ==> sizes[i] == counts[i] * d
    ensures Sum(sizes) == Sum(counts) * d
  {
    if counts != [] {
      SumOfMultiples(counts[..|counts| - 1], sizes[..|sizes| - 1], d);
    }
  }

  /** Programs that fit into physical memory never have to take a frame from each other. */
  lemma FittingIsNotCrowded(s: State)
    requires Inv(s) && Fits(FlatOf(s), MEMORY_SIZE)
    ensures !Crowded(s)
  {
    if Crowded(s) {
      CrowdedNeedsTwo(s);
      var v: nat :| v < NumPages(s, s.cur) && !s.spaces[s.cur].pageTable[v].valid;
      AmpleHasRoom(s, v);
      assert false;
    }
  }

  /** Nor does any of them ever have to give up a page. */
  lemma AmpleHasRoom(s: State, v: nat)
    requires Inv(s) && Ample(FlatOf(s), MEMORY_SIZE) && v < NumPages(s, s.cur)
    ensures Roomy(s, v)
  {
    if !Roomy(s, v) {
      MorePagesThanFrames(s, v);
      SumOfMultiples(PageCounts(s), Sizes(FlatOf(s)), PAGE_SIZE);
      assert false;
    }
  }

  /** The boot image: every page of every program as `LoadPage` would load it. */
  lemma BootView(s: State, i: nat, a: nat)
    requires Shape(s) && TlbEmpty(s) && i < |s.spaces|
    requires forall f :: 0 <= f < NUM_PHYS_PAGES ==> !s.used[f]
    requires forall k :: 0 <= k < |s.spaces| ==> s.spaces[k] == NewSpace(s.spaces[k].exe)
    requires a < |FlatOf(s).memories[i]|
    ensures FlatOf(s).memories[i][a] == DemandPage(s.spaces[i].exe, a / PAGE_SIZE)[a % PAGE_SIZE]
  {
    BootState(s);
    assert PageOf(s, i, a / PAGE_SIZE) == DemandPage(s.spaces[i].exe, a / PAGE_SIZE);
  }

  /** The operation is an access that means an eviction across address spaces. */
  ghost predicate StopsAt(policy: Policy, s: State, op: Op)
    requires Shape(s)
  {
    !op.SwitchOp? && Stops(policy, s, op.addr / PAGE_SIZE)
  }

  /** A page in the TLB is resident. */
  lemma CachedSettles(s: State, s': State, v: nat)
    requires Inv(s) && v < NumPages(s, s.cur) && TlbFind(s.tlb, v) < TLB_SIZE && SameShelf(s, s')
    ensures Settles(s, s', v)
  {
    assert SlotOk(s, TlbFind(s.tlb, v));
  }

  lemma SettlesOn(s: State, t: State, t': State, v: nat)
    requires Shape(s) && v < NumPages(s, s.cur) && Settles(s, t, v) && SameShelf(t, t')
    ensures Settles(s, t', v)
  {
  }

  /**
   One operation, retried after its fault as the machine does.  At most one
   fault: a repeated access finds the page in the TLB.
   */
  method Perform(k: Kernel, op: Op) returns (foreign: bool, values: seq<int>)
    requires k.Valid() && OpOk(FlatOf(k.S()), op)
    modifies k.Repr()
    ensures k.Valid()
    ensures foreign ==> FlatOf(k.S()) == old(FlatOf(k.S())) && Crowded(k.S())
    ensures !foreign ==>
      && FlatOf(k.S()) == Step(old(FlatOf(k.S())), op)
      && values == Result(old(FlatOf(k.S())), op)
    ensures foreign ==> StopsAt(k.policy, old(k.S()), op)
    ensures !k.policy.Random? && StopsAt(k.policy, old(k.S()), op) ==> foreign
  {
    hide PteOk, CleanOk, SlotOk, FrameOk, NoDuplicates, TlbFind, Crowded, PageOf, Stops, Load, Store, SameShelf,
      Settles, Roomy;
    foreign, values := false, [];
    match op
    case LoadOp(addr, size) =>
      foreign, values := PerformLoad(k, addr, size);
    case StoreOp(addr, size, value) =>
      foreign := PerformStore(k, addr, size, value);
    case SwitchOp(next) =>
      ghost var s := k.S();
      k.ContextSwitch(next);
      SameViewsSameFlat(s, k.S());
  }

  method PerformLoad(k: Kernel, addr: nat, size: nat) returns (foreign: bool, values: seq<int>)
    requires k.Valid() && InBounds(FlatOf(k.S()), addr, size)
    modifies k.Repr()
    ensures k.Valid() && FlatOf(k.S()) == old(FlatOf(k.S()))
    ensures if foreign then Crowded(k.S()) else values == [Load(FlatOf(k.S()).memories[k.cur], addr, size)]
    ensures foreign ==> Stops(k.policy, old(k.S()), addr / PAGE_SIZE)
    ensures !k.policy.Random? && Stops(k.policy, old(k.S()), addr / PAGE_SIZE) ==> foreign
    ensures Roomy(old(k.S()), addr / PAGE_SIZE) ==> !foreign && Settles(old(k.S()), k.S(), addr / PAGE_SIZE)
  {
    hide PteOk, CleanOk, SlotOk, FrameOk, NoDuplicates, TlbFind, Brought, Crowded, PageOf, Stops, Load, SameShelf,
      Settles, Roomy, Shifted,
      SameTags;
    ghost var s, v := k.S(), addr / PAGE_SIZE;
    RoomyInside(s, v);
    values := [];
    var ok, value;
    ok, value, foreign := k.ReadMem(addr, size);
    SameViewsSameFlat(s, k.S());
    if ok && Roomy(s, v) {
      CachedSettles(s, k.S(), v);
    }
    if !ok && !foreign {
      ghost var t := k.S();
      ok, value, foreign := k.ReadMem(addr, size);
      SameViewsSameFlat(t, k.S());
      if Roomy(s, v) {
        SettlesOn(s, t, k.S(), v);
      }
    }
    if !foreign {
      values := [value];
    }
  }

  lemma RoomyInside(s: State, v: nat)
    requires Shape(s)
    ensures Roomy(s, v) ==> v < NumPages(s, s.cur)
  {
  }

  method PerformStore(k: Kernel, addr: nat, size: nat, value: int) returns (foreign: bool)
    requires k.Valid() && InBounds(FlatOf(k.S()), addr, size)
    modifies k.Repr()
    ensures k.Valid()
    ensures FlatOf(k.S())
         == if foreign then old(FlatOf(k.S())) else Step(old(FlatOf(k.S())), StoreOp(addr, size, value))
    ensures foreign ==> Crowded(k.S())
    ensures foreign ==> Stops(k.policy, old(k.S()), addr / PAGE_SIZE)
    ensures !k.policy.Random? && Stops(k.policy, old(k.S()), addr / PAGE_SIZE) ==> foreign
  {
    hide PteOk, CleanOk, SlotOk, FrameOk, NoDuplicates, TlbFind, Brought, Roomy, Crowded, PageOf, Stops, Settles,
      Shifted;
    ghost var s := k.S();
    var ok;
    ok, foreign := k.WriteMem(addr, size, value);
    if !ok {
      SameViewsSameFlat(s, k.S());
      if !foreign {
        ok, foreign := k.WriteMem(addr, size, value);
      }
    }
    assert !foreign ==> FlatOf(k.S()).memories == Step(FlatOf(s), StoreOp(addr, size, value)).memories;
  }

  /** A run that started with programs that fit cannot have come to a crowded state. */
  lemma RunFits(f: Flat, ops: seq<Op>, s: State)
    requires RunOk(f, ops) && Inv(s) && FlatOf(s) == After(f, ops) && Crowded(s)
    ensures !Fits(f, MEMORY_SIZE)
  {
    AfterKeepsSizes(f, ops);
    assert |Sizes(f)| == |f.memories|;
    assert Fits(f, MEMORY_SIZE) ==> Fits(FlatOf(s), MEMORY_SIZE);
    if Fits(FlatOf(s), MEMORY_SIZE) {
      FittingIsNotCrowded(s);
    }
  }

  /**
   Any run of loads, stores and context switches, under any replacement policy:
   the values loaded and the memories left are those of the flat machine, to the end
   of the run if the programs fit into memory or there is only one of them, else up to
   the first eviction across address spaces, if there is one: in state `at`, operation
   `done` asks for an absent page, every frame is in use, and the policy takes one that
   belongs to another space.
   */
  method Execute(k: Kernel, ops: seq<Op>) returns (foreign: bool, done: nat, values: seq<int>, ghost at: State)
    requires k.Valid() && RunOk(FlatOf(k.S()), ops)
    modifies k.Repr()
    ensures k.Valid()
    ensures done <= |ops| && (!foreign ==> done == |ops|) && RunOk(old(FlatOf(k.S())), ops[..done])
    ensures FlatOf(k.S()) == After(old(FlatOf(k.S())), ops[..done])
    ensures values == Values(old(FlatOf(k.S())), ops[..done])
    ensures foreign ==> Crowded(k.S())
    ensures foreign ==>
      && done < |ops| && Inv(at) && FlatOf(at) == After(old(FlatOf(k.S())), ops[..done])
      && StopsAt(k.policy, at, ops[done])
    ensures Fits(old(FlatOf(k.S())), MEMORY_SIZE) ==> !foreign
  {
    hide Step, Result, OpOk, FlatOf, RunOk, After, Values, StopsAt;
    ghost var f := FlatOf(k.S());
    foreign, done, values, at := false, 0, [], k.S();
    RunNone(f, ops);
    while done < |ops|
      invariant 0 <= done <= |ops| && k.Valid() && !foreign
      invariant RunOk(f, ops[..done])
      invariant FlatOf(k.S()) == After(f, ops[..done]) && values == Values(f, ops[..done])
    {
      RunNext(f, ops, done);
      at := k.S();
      var v;
      foreign, v := Perform(k, ops[done]);
      if foreign {
        RunFits(f, ops[..done], k.S());
        return;
      }
      values := values + v;
      done := done + 1;
    }
  }
}
