/**
 An instruction that meets a page fault is abandoned, the pending delayed load is
 settled, and the instruction is started again: when that cannot be noticed.
 */
module Restarts {
  import opened Numbers
  import opened Options
  import opened Multiplication
  import F = FlatMemory
  import opened Mips

  /** `r` is `r0` with its delayed load done; `BAD_VADDR` may be anything. */
  ghost predicate Settled(r0: Registers, r: Registers) {
    && WellFormed(r0) && WellFormed(r)
    && forall k :: 0 <= k < NUM_REGS && k != BAD_VADDR ==> r[k] == DelayedLoad(r0, 0, 0)[k]
  }

  /** All that a program can tell apart: not `BAD_VADDR`, and not the value of a load into register 0. */
  ghost predicate Same(r1: Registers, r2: Registers) {
    && |r1| == |r2| == NUM_REGS
    && forall k :: 0 <= k < NUM_REGS && k != BAD_VADDR && !(k == LOAD_VALUE && r1[LOAD] == 0) ==> r1[k] == r2[k]
  }

  ghost predicate SameOutcome(a: Outcome, b: Outcome) {
    match (a, b)
    case (Done(r1, mem1), Done(r2, mem2)) => Same(r1, r2) && mem1 == mem2
    case (Trapped(e1, r1, mem1), Trapped(e2, r2, mem2)) => e1 == e2 && Same(r1, r2) && mem1 == mem2
    case (Faulted(r1), Faulted(r2)) => Same(r1, r2)
    case (Aborted, Aborted) => true
    case _ => false
  }

  /** The pending load, if any, is into a register that `i` neither reads nor writes directly. */
  predicate Independent(r: Registers, i: Instr)
    requires WellFormed(r)
  {
    r[LOAD] == 0 || (!Reads(i, r[LOAD]) && r[LOAD] != Target(i))
  }

  lemma SettledOnce(r: Registers, bad: Word)
    requires WellFormed(r)
    ensures Settled(r, Raised(r, bad))
  {
  }

  lemma SettledAgain(r0: Registers, r: Registers, bad: Word)
    requires Settled(r0, r)
    ensures Settled(r0, Raised(r, bad))
  {
  }

  lemma SettledAgrees(r0: Registers, r: Registers, i: Instr)
    requires Settled(r0, r) && Independent(r0, i)
    ensures AgreeFor(r0, r, i) && r[PC] == r0[PC]
  {
  }

  /** Finishing first the instruction and then the delayed load, or the other way round. */
  lemma FinishSettled(r0: Registers, r: Registers, w: Writes, nextReg: Reg, v0: Word, v: Word, pc: Word)
    requires Settled(r0, r) && (w.One? ==> w.r <= LO && (w.r == HI || w.r == LO || r0[LOAD] == 0 || w.r != r0[LOAD]))
    requires nextReg == 0 || v0 == v
    ensures Same(Finish(Apply(r0, w), nextReg, v0, pc), Finish(Apply(r, w), nextReg, v, pc))
  {
  }

  lemma BypassSettled(r0: Registers, r: Registers, rt: Reg)
    requires Settled(r0, r) && rt != 0
    ensures Bypass(r, rt) == Bypass(r0, rt)
  {
  }

  lemma RaiseSettled(r0: Registers, r: Registers, bad: Word)
    requires Settled(r0, r)
    ensures Same(Raised(r0, bad), Raised(r, bad))
  {
  }

  lemma LoadSettled(r0: Registers, r: Registers, i: Instr, value: int, pc: Word)
    requires Settled(r0, r)
    ensures Same(Finish(r0, i.rt, Loaded(i.op, value, Bypass(r0, i.rt)), pc),
                 Finish(r, i.rt, Loaded(i.op, value, Bypass(r, i.rt)), pc))
  {
    hide Loaded, Bypass;
    if i.rt != 0 {
      BypassSettled(r0, r, i.rt);
    }
    FinishSettled(r0, r, Nothing, i.rt, Loaded(i.op, value, Bypass(r0, i.rt)), Loaded(i.op, value, Bypass(r, i.rt)),
      pc);
  }

  /** With all it needs present, the instruction does the same before and after the fault. */
  lemma ExecSettled(r0: Registers, r: Registers, mem: Memory, present: set<nat>, i: Instr)
    requires Settled(r0, r) && MemoryOk(mem) && Independent(r0, i)
    ensures SameOutcome(Exec(r0, mem, present, i), Exec(r, mem, present, i))
  {
    SettledAgrees(r0, r, i);
    IssueAgrees(r0, r, i);
    hide *;
    var a := Issue(r0, i);
    if a.Loads? || a.Stores? || a.Merges? {
      MemorySettled(r0, r, mem, present, i);
    } else {
      PlainSettled(r0, r, mem, present, i);
    }
  }

  lemma PlainSettled(r0: Registers, r: Registers, mem: Memory, present: set<nat>, i: Instr)
    requires Settled(r0, r) && MemoryOk(mem) && Independent(r0, i) && Issue(r0, i) == Issue(r, i)
    requires var a := Issue(r0, i); a.Plain? || a.Raises? || a.Aborts?
    ensures SameOutcome(Exec(r0, mem, present, i), Exec(r, mem, present, i))
  {
    IssueTarget(r0, i);
    hide Compute, Finish, Raised, Settled, Same, Reads, Target, Loaded, Merged, Translate, F.Load, F.Store, Bypass,
      Plus4;
    match Issue(r0, i)
    case Plain(w, pcAfter) => FinishSettled(r0, r, w, 0, 0, 0, pcAfter);
    case Raises(_, bad) => RaiseSettled(r0, r, bad);
    case Aborts =>
  }

  lemma MemorySettled(r0: Registers, r: Registers, mem: Memory, present: set<nat>, i: Instr)
    requires Settled(r0, r) && MemoryOk(mem) && AgreeFor(r0, r, i) && Issue(r0, i) == Issue(r, i)
    requires var a := Issue(r0, i); a.Loads? || a.Stores? || a.Merges?
    ensures SameOutcome(Exec(r0, mem, present, i), Exec(r, mem, present, i))
  {
    hide Compute, Finish, Raised, Settled, Same, Loaded, Merged, Translate, F.Load, F.Store, Bypass, Plus4, F.Aligned;
    var pc := Plus4(r0[NEXT_PC]);
    match Issue(r0, i)
    case Loads(addr, size) =>
      RaiseSettled(r0, r, addr);
      if Translate(mem, present, addr, size) == Fine {
        FineIsInside(mem, present, addr, size);
        LoadSettled(r0, r, i, F.Load(mem, addr, size), pc);
      }
    case Stores(addr, _, _) =>
      RaiseSettled(r0, r, addr);
      FinishSettled(r0, r, Nothing, 0, 0, 0, pc);
    case Merges(addr) =>
      RaiseSettled(r0, r, addr);
      FinishSettled(r0, r, Nothing, 0, 0, 0, pc);
      MergeAgrees(r0, r, i);
  }

  /** What is merged into memory comes from a register that was read. */
  lemma MergeAgrees(r0: Registers, r: Registers, i: Instr)
    requires AgreeFor(r0, r, i) && Issue(r0, i).Merges?
    ensures r0[i.rt] == r[i.rt]
  {
  }

  predicate IsPage(mem: Memory, p: nat) {
    p < |mem| / PAGE_SIZE
  }

  function Pages(mem: Memory): set<nat> {
    set p: nat | 0 <= p < |mem| / PAGE_SIZE && IsPage(mem, p)
  }

  /** A pass that does not fault would have gone the same way with every page present. */
  lemma MorePages(r: Registers, mem: Memory, present: set<nat>, decode: Word -> Instr)
    requires WellFormed(r) && MemoryOk(mem) && !Attempt(r, mem, present, decode).Faulted?
    ensures Attempt(r, mem, Pages(mem), decode) == Attempt(r, mem, present, decode)
  {
    hide Compute, Finish, Raised, Loaded, Merged, F.Load, F.Store, Bypass, Wrap, Plus4, Apply;
  }

  /**
   The machine loop at one instruction: pass after pass, with whatever pages happen to be
   within reach each time.  `None` if a pass before the last one does not fault.
   */
  function Retried(r: Registers, mem: Memory, presents: seq<set<nat>>, decode: Word -> Instr): Option<Outcome>
    requires WellFormed(r) && MemoryOk(mem)
    decreases |presents|
  {
    if presents == [] then None
    else
      var o := Attempt(r, mem, presents[0], decode);
      if |presents| == 1 then Some(o)
      else if o.Faulted? then FaultSettles(r, mem, presents[0], decode); Retried(o.r, mem, presents[1..], decode)
      else None
  }

  lemma FaultSettles(r: Registers, mem: Memory, present: set<nat>, decode: Word -> Instr)
    requires WellFormed(r) && MemoryOk(mem) && Attempt(r, mem, present, decode).Faulted?
    ensures
      var r' := Attempt(r, mem, present, decode).r;
      && Settled(r, r') && WellFormed(r')
      && forall r0 :: Settled(r0, r) ==> Settled(r0, r')
  {
    var r' := Attempt(r, mem, present, decode).r;
    FaultRaises(r, mem, present, decode);
    var bad :| r' == Raised(r, bad);
    SettledOnce(r, bad);
    forall r0 | Settled(r0, r)
      ensures Settled(r0, r')
    {
      SettledAgain(r0, r, bad);
    }
  }

  lemma FaultRaises(r: Registers, mem: Memory, present: set<nat>, decode: Word -> Instr)
    requires WellFormed(r) && MemoryOk(mem) && Attempt(r, mem, present, decode).Faulted?
    ensures exists bad: Word :: Attempt(r, mem, present, decode).r == Raised(r, bad)
  {
    hide Compute, Finish, Raised, Loaded, Merged, F.Load, F.Store, Bypass, Wrap, Plus4, Apply;
  }

  /** The instruction at `PC`, if it is on a page of the program. */
  function Current(r: Registers, mem: Memory, decode: Word -> Instr): Option<Instr>
    requires WellFormed(r) && MemoryOk(mem)
  {
    if Translate(mem, Pages(mem), r[PC], 4) == Fine then
      FineIsInside(mem, Pages(mem), r[PC], 4);
      Some(decode(Wrap(F.Load(mem, r[PC], 4))))
    else None
  }

  predicate Safe(r: Registers, mem: Memory, decode: Word -> Instr)
    requires WellFormed(r) && MemoryOk(mem)
  {
    var i := Current(r, mem, decode);
    i.Some? ==> Independent(r, i.value)
  }

  lemma AttemptSettled(r0: Registers, r: Registers, mem: Memory, decode: Word -> Instr)
    requires Settled(r0, r) && MemoryOk(mem) && Safe(r0, mem, decode)
    ensures SameOutcome(Attempt(r0, mem, Pages(mem), decode), Attempt(r, mem, Pages(mem), decode))
  {
    assert r[PC] == r0[PC];
    RaiseSettled(r0, r, r0[PC]);
    if Translate(mem, Pages(mem), r[PC], 4) == Fine {
      ExecSettled(r0, r, mem, Pages(mem), Current(r0, mem, decode).value);
    }
  }

  lemma {:induction false} RetriedSettled(r0: Registers, r: Registers, mem: Memory, presents: seq<set<nat>>,
                                          decode: Word -> Instr)
    requires Settled(r0, r) && MemoryOk(mem) && Safe(r0, mem, decode)
    ensures
      var o := Retried(r, mem, presents, decode);
      o.Some? && !o.value.Faulted? ==> SameOutcome(Attempt(r0, mem, Pages(mem), decode), o.value)
    decreases |presents|
  {
    var o := Retried(r, mem, presents, decode);
    if o.Some? && !o.value.Faulted? {
      if |presents| == 1 {
        MorePages(r, mem, presents[0], decode);
        AttemptSettled(r0, r, mem, decode);
      } else {
        FaultSettles(r, mem, presents[0], decode);
        RetriedSettled(r0, Attempt(r, mem, presents[0], decode).r, mem, presents[1..], decode);
      }
    }
  }

  /**
   However often an instruction faults, on its fetch or on its data, it ends as if every
   page had been present all along, provided it is independent of the pending load.
   */
  lemma RestartIsTransparent(r: Registers, mem: Memory, presents: seq<set<nat>>, decode: Word -> Instr)
    requires WellFormed(r) && MemoryOk(mem) && Safe(r, mem, decode)
    ensures
      var o := Retried(r, mem, presents, decode);
      o.Some? && !o.value.Faulted? ==> SameOutcome(Attempt(r, mem, Pages(mem), decode), o.value)
  {
    var o := Retried(r, mem, presents, decode);
    if o.Some? && !o.value.Faulted? {
      if |presents| == 1 {
        MorePages(r, mem, presents[0], decode);
      } else {
        FaultSettles(r, mem, presents[0], decode);
        RetriedSettled(r, Attempt(r, mem, presents[0], decode).r, mem, presents[1..], decode);
      }
    }
  }
}
