/**
 Exactly which instructions can be restarted behind a pending delayed load without
 anybody noticing, whatever the registers and the memory hold.
 */
module RestartExact {
  import opened Numbers
  import opened Options
  import opened Multiplication
  import F = FlatMemory
  import opened Mips
  import opened Restarts

  function Settle(r: Registers): (r': Registers)
    requires WellFormed(r)
    ensures WellFormed(r') && Settled(r, r')
  {
    DelayedLoad(r, 0, 0)
  }

  predicate Fetchable(r: Registers, mem: Memory)
    requires WellFormed(r)
  {
    Translate(mem, Pages(mem), r[PC], 4) == Fine
  }

  /** The instruction does the same before and after the load has been settled. */
  ghost predicate Unnoticed(r: Registers, mem: Memory, i: Instr)
    requires WellFormed(r) && MemoryOk(mem)
  {
    SameOutcome(Exec(r, mem, Pages(mem), i), Exec(Settle(r), mem, Pages(mem), i))
  }

  /**
   Whatever registers and memory hold, instruction `i` behind a load into register `l` ends as if no
   fault had come.
   */
  ghost predicate NeverSeen(i: Instr, l: Reg) {
    forall r: Registers, mem: Memory, presents: seq<set<nat>> ::
      WellFormed(r) && r[LOAD] == l && MemoryOk(mem) ==> NotSeen(i, r, mem, presents)
  }

  ghost predicate NotSeen(i: Instr, r: Registers, mem: Memory, presents: seq<set<nat>>)
    requires WellFormed(r) && MemoryOk(mem)
  {
    var o := Retried(r, mem, presents, _ => i);
    o.Some? && !o.value.Faulted? ==> SameOutcome(Attempt(r, mem, Pages(mem), _ => i), o.value)
  }

  /** The same about a single execution. */
  ghost predicate Transparent(i: Instr, l: Reg) {
    forall r: Registers, mem: Memory :: Behind(r, mem, l) ==> TransparentAt(i, r, mem)
  }

  ghost predicate Behind(r: Registers, mem: Memory, l: Reg) {
    WellFormed(r) && r[LOAD] == l && MemoryOk(mem) && Fetchable(r, mem)
  }

  ghost predicate TransparentAt(i: Instr, r: Registers, mem: Memory)
    requires WellFormed(r) && MemoryOk(mem)
  {
    !Exec(Settle(r), mem, Pages(mem), i).Faulted? ==> Unnoticed(r, mem, i)
  }

  // ---------- from single executions to retries ----------

  lemma SameTransitive(a: Outcome, b: Outcome, c: Outcome)
    requires SameOutcome(a, b) && SameOutcome(b, c)
    ensures SameOutcome(a, c)
  {
  }

  lemma SameSymmetric(a: Outcome, b: Outcome)
    requires SameOutcome(a, b)
    ensures SameOutcome(b, a)
  {
  }

  /** However often the load has been settled, the instruction does the same. */
  lemma SettledOnceForAll(r0: Registers, r: Registers, mem: Memory, i: Instr)
    requires Settled(r0, r) && MemoryOk(mem)
    ensures SameOutcome(Exec(Settle(r0), mem, Pages(mem), i), Exec(r, mem, Pages(mem), i))
  {
    assert Settled(Settle(r0), r);
    ExecSettled(Settle(r0), r, mem, Pages(mem), i);
  }

  /** A retried instruction that completes has run on settled registers with all it needed present. */
  lemma {:induction false} LastPass(r0: Registers, r: Registers, mem: Memory, presents: seq<set<nat>>, i: Instr)
    returns (last: Registers)
    requires Settled(r0, r) && MemoryOk(mem)
    requires var o := Retried(r, mem, presents, _ => i); o.Some? && !o.value.Faulted?
    ensures Settled(r0, last) && Retried(r, mem, presents, _ => i) == Some(Attempt(last, mem, Pages(mem), _ => i))
    decreases |presents|
  {
    if |presents| == 1 {
      last := r;
      MorePages(r, mem, presents[0], _ => i);
    } else {
      FaultSettles(r, mem, presents[0], _ => i);
      last := LastPass(r0, Attempt(r, mem, presents[0], _ => i).r, mem, presents[1..], i);
    }
  }

  lemma TransparentMeansNotSeen(i: Instr, r: Registers, mem: Memory, presents: seq<set<nat>>)
    requires WellFormed(r) && MemoryOk(mem) && (Fetchable(r, mem) ==> TransparentAt(i, r, mem))
    ensures NotSeen(i, r, mem, presents)
  {
    var o := Retried(r, mem, presents, _ => i);
    if o.Some? && !o.value.Faulted? {
      if |presents| == 1 {
        MorePages(r, mem, presents[0], _ => i);
      } else {
        FaultSettles(r, mem, presents[0], _ => i);
        var last := LastPass(r, Attempt(r, mem, presents[0], _ => i).r, mem, presents[1..], i);
        LastPassSame(i, r, last, mem);
      }
    }
  }

  lemma LastPassSame(i: Instr, r: Registers, last: Registers, mem: Memory)
    requires Settled(r, last) && MemoryOk(mem) && (Fetchable(r, mem) ==> TransparentAt(i, r, mem))
    requires !Attempt(last, mem, Pages(mem), _ => i).Faulted?
    ensures SameOutcome(Attempt(r, mem, Pages(mem), _ => i), Attempt(last, mem, Pages(mem), _ => i))
  {
    assert last[PC] == r[PC];
    RaiseSettled(r, last, r[PC]);
    if Fetchable(r, mem) {
      hide Exec, Same, Translate;
      SettledOnceForAll(r, last, mem, i);
      SameTransitive(Exec(r, mem, Pages(mem), i), Exec(Settle(r), mem, Pages(mem), i), Exec(last, mem, Pages(mem), i));
    }
  }

  /** A fault on the fetch shows what one execution after settling does. */
  lemma NotSeenMeansTransparent(i: Instr, r: Registers, mem: Memory)
    requires WellFormed(r) && MemoryOk(mem) && Fetchable(r, mem) && NotSeen(i, r, mem, [{}, Pages(mem)])
    ensures TransparentAt(i, r, mem)
  {
    var presents, again := [{}, Pages(mem)], Raised(r, r[PC]);
    SettledOnce(r, r[PC]);
    assert presents[1..] == [Pages(mem)];
    assert Retried(again, mem, [Pages(mem)], _ => i) == Some(Attempt(again, mem, Pages(mem), _ => i));
    assert Retried(r, mem, presents, _ => i) == Some(Exec(again, mem, Pages(mem), i));
    hide Exec, Same, Translate, Retried;
    SettledOnceForAll(r, again, mem, i);
    var a, b, c := Exec(r, mem, Pages(mem), i), Exec(again, mem, Pages(mem), i), Exec(Settle(r), mem, Pages(mem), i);
    SameSymmetric(c, b);
    if !c.Faulted? {
      SameTransitive(a, b, c);
    }
  }

  lemma NeverSeenIsTransparent(i: Instr, l: Reg)
    ensures NeverSeen(i, l) <==> Transparent(i, l)
  {
    if Transparent(i, l) {
      forall r: Registers, mem: Memory, presents: seq<set<nat>> | WellFormed(r) && r[LOAD] == l && MemoryOk(mem)
        ensures NotSeen(i, r, mem, presents)
      {
        assert Fetchable(r, mem) ==> Behind(r, mem, l);
        TransparentMeansNotSeen(i, r, mem, presents);
      }
    }
    if NeverSeen(i, l) {
      forall r: Registers, mem: Memory | Behind(r, mem, l)
        ensures TransparentAt(i, r, mem)
      {
        assert NotSeen(i, r, mem, [{}, Pages(mem)]);
        NotSeenMeansTransparent(i, r, mem);
      }
    }
  }

  // ---------- instructions that stay away from memory ----------

  predicate MemoryOp(op: Op) {
    match op
    case LB | LBU | LH | LHU | LW | LWL | LWR | SB | SH | SW | SWL | SWR => true
    case _ => false
  }

  /** Two actions, the second one behind the settled load of `v` into `l`, leave the same. */
  predicate SameFor(l: Reg, v: Word, a: Action, b: Action) {
    match a
    case Plain(w, pc) => b.Plain? && pc == b.pc && SameWrites(l, v, w, b.w)
    case Raises(e, _) => b.Raises? && b.e == e
    case Aborts => b.Aborts?
    case _ => false
  }

  /** Register 0 stays 0; without a fault the load comes last, after one the write does. */
  predicate SameWrites(l: Reg, v: Word, w: Writes, w': Writes) {
    match w
    case Nothing => w'.Nothing?
    case One(n, x) => w'.One? && w'.r == n && (n == 0 || w'.v == if n == l then v else x)
    case Both(_, _) => w' == w
  }

  lemma RegisterOnly(i: Instr, a: Word, b: Word, hi: Word, lo: Word, next: Word)
    requires !MemoryOp(i.op)
    ensures var c := Compute(i, a, b, hi, lo, next); c.Plain? || c.Raises?
    ensures var c := Compute(i, a, b, hi, lo, next); c.Plain? ==>
      (c.w.One? <==> OneTarget(i.op)) && (c.w.Both? <==> TwoTargets(i.op))
    ensures
      var c := Compute(i, a, b, hi, lo, next);
      c.Plain? && c.w.One? ==> if i.op == MTHI || i.op == MTLO then MovesHiLo(i.op, c.w.r) else c.w.r == Target(i)
  {
    WritesWhere(i, a, b, hi, lo, next);
    hide Compute, Target, Wrap, Plus4, AndBits, OrBits, XorBits, Low16, ShiftLeft, ShiftRight, Quotient, High, Branch,
      JumpTarget, Signed, Pow2;
    KindOfWrite(i, a, b, hi, lo, next);
  }

  lemma KindOfWrite(i: Instr, a: Word, b: Word, hi: Word, lo: Word, next: Word)
    requires !MemoryOp(i.op)
    ensures
      var c := Compute(i, a, b, hi, lo, next);
      (c.Plain? && (c.w.One? <==> OneTarget(i.op)) && (c.w.Both? <==> TwoTargets(i.op))) || c.Raises?
  {
    hide Wrap, Plus4, AndBits, OrBits, XorBits, Low16, ShiftLeft, ShiftRight, Quotient, High, Branch, JumpTarget,
      Signed, Pow2;
  }

  lemma WritesWhere(i: Instr, a: Word, b: Word, hi: Word, lo: Word, next: Word)
    requires !MemoryOp(i.op)
    ensures
      var c := Compute(i, a, b, hi, lo, next);
      c.Plain? && c.w.One? ==> if i.op == MTHI || i.op == MTLO then MovesHiLo(i.op, c.w.r) else c.w.r == Target(i)
  {
    hide Wrap, Plus4, AndBits, OrBits, XorBits, Low16, ShiftLeft, ShiftRight, Quotient, High, Branch, JumpTarget,
      Signed, Pow2;
  }

  predicate MovesHiLo(op: Op, n: nat) {
    (op == MTHI && n == HI) || (op == MTLO && n == LO)
  }

  predicate TwoTargets(op: Op) {
    op == MULT || op == MULTU || op == DIV || op == DIVU
  }

  predicate OneTarget(op: Op) {
    match op
    case BEQ | BNE | BGEZ | BLTZ | BGTZ | BLEZ | J | JR | MULT | MULTU | DIV | DIVU | SYSCALL | RES | UNIMP => false
    case _ => !MemoryOp(op)
  }

  /** Finishing two plain actions comes to the same exactly if their effects are the same in this sense. */
  lemma FinishedSame(r: Registers, w: Writes, w': Writes, pc: Word, pc': Word)
    requires WellFormed(r) && r[LOAD] != 0
    requires (w.One? ==> w.r <= LO) && (w'.One? ==> w'.r <= LO)
    requires (w.Nothing? <==> w'.Nothing?) && (w.One? <==> w'.One?) && (w.One? ==> w'.r == w.r)
    ensures Same(Finish(Apply(r, w), 0, 0, pc), Finish(Apply(Settle(r), w'), 0, 0, pc'))
       <==> pc == pc' && SameWrites(r[LOAD], r[LOAD_VALUE], w, w')
  {
    var f, f' := Finish(Apply(r, w), 0, 0, pc), Finish(Apply(Settle(r), w'), 0, 0, pc');
    assert f[NEXT_PC] == pc && f'[NEXT_PC] == pc';
    if w.One? {
      assert f'[w.r] == (if w.r == 0 then 0 else w'.v);
      assert f[w.r] == if w.r == 0 then 0 else if w.r == r[LOAD] then r[LOAD_VALUE] else w.v;
    } else if w.Both? {
      assert f[HI] == w.hi && f[LO] == w.lo && f'[HI] == w'.hi && f'[LO] == w'.lo;
    }
  }

  lemma RegistersUnnoticed(r: Registers, mem: Memory, i: Instr)
    requires WellFormed(r) && MemoryOk(mem) && r[LOAD] != 0 && !MemoryOp(i.op)
    ensures Unnoticed(r, mem, i) <==> SameFor(r[LOAD], r[LOAD_VALUE], Issue(r, i), Issue(Settle(r), i))
    ensures !Exec(Settle(r), mem, Pages(mem), i).Faulted?
  {
    hide Compute, Settle, Finish, Apply, Same, Raised, Translate, Settled;
    var t := Settle(r);
    RegisterOnly(i, r[i.rs], r[i.rt], r[HI], r[LO], r[NEXT_PC]);
    RegisterOnly(i, t[i.rs], t[i.rt], t[HI], t[LO], t[NEXT_PC]);
    var a, b := Issue(r, i), Issue(t, i);
    if a.Plain? && b.Plain? {
      FinishedSame(r, a.w, b.w, a.pc, b.pc);
    } else if a.Raises? && b.Raises? {
      TrapsSame(r, a.bad, b.bad);
    }
  }

  lemma TrapsSame(r: Registers, bad: Word, bad': Word)
    requires WellFormed(r)
    ensures Same(Raised(r, bad), Raised(Settle(r), bad'))
  {
  }

  // ---------- in terms of values ----------

  /** What register `k` holds if register `l` holds `x`. */
  function Operand(k: Reg, l: Reg, x: Word, z: Word): Word {
    if k == 0 then 0 else if k == l then x else z
  }

  /** Old and new contents of the register of the load, and of the other registers. */
  datatype Contents = Contents(x: Word, v: Word, z1: Word, z2: Word, hi: Word, lo: Word, next: Word)

  predicate Possible(i: Instr, c: Contents) {
    i.rs == i.rt ==> c.z1 == c.z2
  }

  function Before(i: Instr, l: Reg, c: Contents): Action {
    Compute(i, Operand(i.rs, l, c.x, c.z1), Operand(i.rt, l, c.x, c.z2), c.hi, c.lo, c.next)
  }

  function Afterwards(i: Instr, l: Reg, c: Contents): Action {
    Compute(i, Operand(i.rs, l, c.v, c.z1), Operand(i.rt, l, c.v, c.z2), c.hi, c.lo, c.next)
  }

  predicate QuietAt(i: Instr, l: Reg, c: Contents) {
    SameFor(l, c.v, Before(i, l, c), Afterwards(i, l, c))
  }

  ghost predicate Quiet(i: Instr, l: Reg) {
    forall c :: Possible(i, c) ==> QuietAt(i, l, c)
  }

  function ContentsOf(i: Instr, r: Registers): Contents
    requires WellFormed(r)
  {
    Contents(r[r[LOAD]], r[LOAD_VALUE], r[i.rs], r[i.rt], r[HI], r[LO], r[NEXT_PC])
  }

  /** Registers with given contents, the program counter at 0. */
  function Holding(i: Instr, l: Reg, c: Contents): (r: Registers)
    requires l != 0
    ensures WellFormed(r)
  {
    seq<Word>(NUM_REGS, k requires 0 <= k < NUM_REGS => Register(i, l, c, k))
  }

  function Register(i: Instr, l: Reg, c: Contents, k: nat): (w: Word)
    ensures k == LOAD ==> w == l
  {
    if k == 0 then 0
    else if k == l then c.x
    else if k == i.rs then c.z1
    else if k == i.rt then c.z2
    else if k == HI then c.hi
    else if k == LO then c.lo
    else if k == NEXT_PC then c.next
    else if k == LOAD then l
    else if k == LOAD_VALUE then c.v
    else 0
  }

  lemma HoldingHolds(i: Instr, l: Reg, c: Contents)
    requires l != 0 && Possible(i, c)
    ensures
      var r := Holding(i, l, c);
      && r[LOAD] == l && r[LOAD_VALUE] == c.v && r[PC] == 0
      && Issue(r, i) == Before(i, l, c) && Issue(Settle(r), i) == Afterwards(i, l, c)
  {
    hide Compute;
    var r := Holding(i, l, c);
    assert r[i.rs] == Operand(i.rs, l, c.x, c.z1) && r[i.rt] == Operand(i.rt, l, c.x, c.z2);
    assert Settle(r)[i.rs] == Operand(i.rs, l, c.v, c.z1) && Settle(r)[i.rt] == Operand(i.rt, l, c.v, c.z2);
  }

  lemma IssueOfContents(i: Instr, r: Registers)
    requires WellFormed(r) && r[LOAD] != 0
    ensures
      var c := ContentsOf(i, r);
      && Possible(i, c)
      && Issue(r, i) == Before(i, r[LOAD], c) && Issue(Settle(r), i) == Afterwards(i, r[LOAD], c)
  {
    hide Compute;
  }

  function OnePage(b: F.byte): (mem: Memory)
    ensures MemoryOk(mem) && |mem| == PAGE_SIZE
  {
    seq<F.byte>(PAGE_SIZE, _ => b)
  }

  lemma PageZeroIsThere(mem: Memory, r: Registers)
    requires WellFormed(r) && MemoryOk(mem) && |mem| >= PAGE_SIZE && r[PC] == 0
    ensures Fetchable(r, mem)
  {
    assert IsPage(mem, 0);
  }

  lemma TransparentIsQuiet(i: Instr, l: Reg)
    requires !MemoryOp(i.op) && l != 0
    ensures Transparent(i, l) <==> Quiet(i, l)
  {
    hide Compute, Holding, Exec, SameFor, Settle, Settled;
    if Quiet(i, l) {
      forall r: Registers, mem: Memory | Behind(r, mem, l)
        ensures TransparentAt(i, r, mem)
      {
        IssueOfContents(i, r);
        assert QuietAt(i, l, ContentsOf(i, r));
        RegistersUnnoticed(r, mem, i);
      }
    }
    if Transparent(i, l) {
      forall c | Possible(i, c)
        ensures QuietAt(i, l, c)
      {
        var r, mem := Holding(i, l, c), OnePage(0);
        HoldingHolds(i, l, c);
        PageZeroIsThere(mem, r);
        assert Behind(r, mem, l);
        RegistersUnnoticed(r, mem, i);
      }
    }
  }
}
