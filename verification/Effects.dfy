/**
 What the instructions do, told apart from the way they are computed: which registers and bytes
 change, to which values, and when there is an exception.
 */
module Effects {
  import opened Numbers
  import opened Multiplication
  import F = FlatMemory
  import opened Mips
  import opened Restarts

  // ---------- bits ----------

  predicate Bit(x: nat, k: nat) {
    x / Pow2(k) % 2 == 1
  }

  lemma HalfBit(x: nat, k: nat)
    requires k > 0
    ensures Bit(x, k) <==> Bit(x / 2, k - 1)
  {
    DivideTwice(x, 2, Pow2(k - 1));
  }

  lemma {:induction false} AndBit(a: nat, b: nat, k: nat)
    ensures Bit(And(a, b), k) <==> Bit(a, k) && Bit(b, k)
    decreases k
  {
    hide And;
    if k > 0 {
      HalfBit(And(a, b), k);
      HalfBit(a, k);
      HalfBit(b, k);
      AndBit(a / 2, b / 2, k - 1);
      AndHalf(a, b);
    } else {
      AndHalf(a, b);
    }
  }

  lemma AndHalf(a: nat, b: nat)
    ensures And(a, b) / 2 == And(a / 2, b / 2) && And(a, b) % 2 == (if a % 2 == 1 && b % 2 == 1 then 1 else 0)
  {
    var low := a % 2 * (b % 2);
    assert low == if a % 2 == 1 && b % 2 == 1 then 1 else 0;
    if a > 0 {
      OneBitMore(And(a / 2, b / 2), low);
    }
  }

  lemma OneBitMore(x: nat, low: nat)
    requires low < 2
    ensures (2 * x + low) / 2 == x && (2 * x + low) % 2 == low
  {
  }

  lemma {:induction false} OrBit(a: nat, b: nat, k: nat)
    ensures Bit(a + b - And(a, b), k) <==> Bit(a, k) || Bit(b, k)
    decreases k
  {
    hide And;
    AndHalf(a, b);
    var c := a + b - And(a, b);
    assert c / 2 == a / 2 + b / 2 - And(a / 2, b / 2) && (c % 2 == 1 <==> a % 2 == 1 || b % 2 == 1);
    if k > 0 {
      HalfBit(c, k);
      HalfBit(a, k);
      HalfBit(b, k);
      OrBit(a / 2, b / 2, k - 1);
    }
  }

  lemma {:induction false} XorBit(a: nat, b: nat, k: nat)
    ensures a + b - 2 * And(a, b) >= 0 && (Bit(a + b - 2 * And(a, b), k) <==> Bit(a, k) != Bit(b, k))
    decreases k
  {
    hide And;
    AndHalf(a, b);
    var c := a + b - 2 * And(a, b);
    assert c / 2 == a / 2 + b / 2 - 2 * And(a / 2, b / 2) && (c % 2 == 1 <==> (a % 2 == 1) != (b % 2 == 1));
    if k > 0 {
      HalfBit(c, k);
      HalfBit(a, k);
      HalfBit(b, k);
      XorBit(a / 2, b / 2, k - 1);
    }
  }

  lemma {:induction false} NotBit(x: nat, n: nat, k: nat)
    requires x < Pow2(n) && k < n
    ensures Bit(Pow2(n) - 1 - x, k) <==> !Bit(x, k)
    decreases k
  {
    var c := Pow2(n) - 1 - x;
    assert c / 2 == Pow2(n - 1) - 1 - x / 2 && c % 2 == 1 - x % 2;
    if k > 0 {
      HalfBit(c, k);
      HalfBit(x, k);
      NotBit(x / 2, n - 1, k - 1);
    }
  }

  lemma {:induction false} LowBit(x: nat, n: nat, k: nat)
    ensures Bit(x % Pow2(n), k) <==> k < n && Bit(x, k)
    decreases n
  {
    if n == 0 {
      assert x % 1 == 0 && 0 / Pow2(k) == 0;
    } else {
      HalfModulus(x, Pow2(n - 1));
      if k > 0 {
        HalfBit(x % Pow2(n), k);
        HalfBit(x, k);
        LowBit(x / 2, n - 1, k - 1);
      }
    }
  }

  lemma HalfModulus(x: nat, p: nat)
    requires p >= 1
    ensures x % (2 * p) / 2 == x / 2 % p && x % (2 * p) % 2 == x % 2
  {
    var q := x / 2;
    var r := x % 2 + 2 * (q % p);
    assert x == 2 * p * (q / p) + r by {
      assert q == p * (q / p) + q % p;
      assert 2 * (p * (q / p)) == 2 * p * (q / p);
    }
    ModulusIsUnique(x, 2 * p, q / p, r);
  }

  // ---------- outcomes ----------

  function Mod32(x: int): Word {
    x % 0x1_0000_0000
  }

  /** The address behind the delay slot. */
  function Behind(r: Registers): Word
    requires |r| == NUM_REGS
  {
    Mod32(r[NEXT_PC] as int + 4)
  }

  /** Registers 0 to LO after the pending load has been done, with `v` in register `n` unless the load goes there. */
  ghost predicate General(r: Registers, r': Registers, n: nat, v: Word) {
    && |r| == |r'| == NUM_REGS
    && forall k :: 0 <= k <= LO ==>
         r'[k] == if k == 0 then 0 else if k == r[LOAD] then r[LOAD_VALUE] else if k == n then v else r[k]
  }

  /** The program counters move on, `next` behind the one after. */
  ghost predicate Advances(r: Registers, r': Registers, next: int)
    requires |r| == |r'| == NUM_REGS
  {
    r'[PREV_PC] == r[PC] && r'[PC] == r[NEXT_PC] && r'[NEXT_PC] == next
  }

  /** Register `n` gets `v`, or nothing does if `n` is 0; memory stays. */
  ghost predicate Sets(r: Registers, mem: Memory, o: Outcome, n: nat, v: Word, next: int) {
    && o.Done? && o.mem == mem && General(r, o.r, n, v) && Advances(r, o.r, next)
    && o.r[LOAD] == 0 && o.r[LOAD_VALUE] == 0
  }

  ghost predicate SetsHiLo(r: Registers, mem: Memory, o: Outcome, hi: int, lo: int) {
    && o.Done? && o.mem == mem && |r| == |o.r| == NUM_REGS && Advances(r, o.r, Behind(r))
    && o.r[HI] == hi && o.r[LO] == lo && o.r[LOAD] == 0 && o.r[LOAD_VALUE] == 0
    && forall k :: 0 <= k < 32 ==>
         o.r[k] == if k == 0 then 0 else if k == r[LOAD] then r[LOAD_VALUE] else r[k]
  }

  /** The machine traps: the pending load is done, everything else stays. */
  ghost predicate Traps(r: Registers, mem: Memory, o: Outcome, e: Exception, bad: int) {
    && o.Trapped? && o.e == e && o.mem == mem && General(r, o.r, 0, 0)
    && o.r[PC] == r[PC] && o.r[NEXT_PC] == r[NEXT_PC] && o.r[PREV_PC] == r[PREV_PC]
    && o.r[BAD_VADDR] == bad && o.r[LOAD] == 0 && o.r[LOAD_VALUE] == 0
  }

  lemma Finishes(r: Registers, mem: Memory, n: nat, v: Word, pc: Word)
    requires WellFormed(r) && n <= LO
    ensures Sets(r, mem, Done(Finish(r[n := v], 0, 0, pc), mem), n, v, pc)
  {
  }

  lemma FinishesNothing(r: Registers, mem: Memory, pc: Word)
    requires WellFormed(r)
    ensures Sets(r, mem, Done(Finish(r, 0, 0, pc), mem), 0, 0, pc)
  {
  }

  lemma FinishesHiLo(r: Registers, mem: Memory, hi: Word, lo: Word)
    requires WellFormed(r)
    ensures SetsHiLo(r, mem, Done(Finish(r[HI := hi][LO := lo], 0, 0, Plus4(r[NEXT_PC])), mem), hi, lo)
  {
  }

  lemma RaisesTrap(r: Registers, mem: Memory, e: Exception, bad: Word)
    requires WellFormed(r)
    ensures Traps(r, mem, Trapped(e, Raised(r, bad), mem), e, bad)
  {
  }

  /** A plain action, as an outcome. */
  lemma PlainSets(r: Registers, mem: Memory, present: set<nat>, i: Instr, n: nat, v: Word, pc: Word)
    requires WellFormed(r) && MemoryOk(mem) && n <= LO && Issue(r, i) == Plain(One(n, v), pc)
    ensures Sets(r, mem, Exec(r, mem, present, i), n, v, pc)
  {
    hide Compute, Finish, Sets;
    Finishes(r, mem, n, v, pc);
  }

  lemma PlainGoes(r: Registers, mem: Memory, present: set<nat>, i: Instr, pc: Word)
    requires WellFormed(r) && MemoryOk(mem) && Issue(r, i) == Plain(Nothing, pc)
    ensures Sets(r, mem, Exec(r, mem, present, i), 0, 0, pc)
  {
    hide Compute, Finish, Sets;
    FinishesNothing(r, mem, pc);
  }

  lemma PlainHiLo(r: Registers, mem: Memory, present: set<nat>, i: Instr, hi: Word, lo: Word)
    requires WellFormed(r) && MemoryOk(mem) && Issue(r, i) == Plain(Both(hi, lo), Plus4(r[NEXT_PC]))
    ensures SetsHiLo(r, mem, Exec(r, mem, present, i), hi, lo)
  {
    hide Compute, Finish, SetsHiLo;
    FinishesHiLo(r, mem, hi, lo);
  }

  lemma PlainTraps(r: Registers, mem: Memory, present: set<nat>, i: Instr, e: Exception, bad: Word)
    requires WellFormed(r) && MemoryOk(mem) && Issue(r, i) == Raises(e, bad)
    ensures Traps(r, mem, Exec(r, mem, present, i), e, bad)
  {
    hide Compute, Finish, Traps, Raised;
    RaisesTrap(r, mem, e, bad);
  }

  /** A word as an `int`. */
  function Int32(x: Word): int {
    if x < 0x8000_0000 then x else x - 0x1_0000_0000
  }

  predicate Fits(x: int) {
    -0x8000_0000 <= x < 0x8000_0000
  }

  // ---------- branches and jumps ----------

  /** Where a branch goes: four times the offset from the next instruction exactly if the condition holds, else on. */
  ghost predicate BranchesIf(r: Registers, mem: Memory, o: Outcome, i: Instr, n: nat, v: Word, taken: bool)
    requires WellFormed(r)
  {
    Sets(r, mem, o, n, v, Mod32(r[NEXT_PC] as int + if taken then 4 * (i.extra as int) else 4))
  }

  lemma BranchEffects(r: Registers, mem: Memory, present: set<nat>, i: Instr)
    requires WellFormed(r) && MemoryOk(mem)
    ensures
      var o, a, b := Exec(r, mem, present, i), Int32(r[i.rs]), Int32(r[i.rt]);
      && (i.op == BEQ ==> BranchesIf(r, mem, o, i, 0, 0, r[i.rs] == r[i.rt]))
      && (i.op == BNE ==> BranchesIf(r, mem, o, i, 0, 0, r[i.rs] != r[i.rt]))
      && (i.op == BGEZ ==> BranchesIf(r, mem, o, i, 0, 0, a >= 0))
      && (i.op == BLTZ ==> BranchesIf(r, mem, o, i, 0, 0, a < 0))
      && (i.op == BGTZ ==> BranchesIf(r, mem, o, i, 0, 0, a > 0))
      && (i.op == BLEZ ==> BranchesIf(r, mem, o, i, 0, 0, a <= 0))
  {
    hide Exec, Sets, Issue, Int32, Mod32;
    if i.op == BEQ || i.op == BNE || i.op == BGEZ || i.op == BLTZ || i.op == BGTZ || i.op == BLEZ {
      BranchIssue(r, i);
      PlainGoes(r, mem, present, i, Target(r, i, Condition(i.op, r[i.rs], r[i.rt])));
    }
  }

  function Condition(op: Op, x: Word, y: Word): bool {
    match op
    case BEQ => x == y
    case BNE => x != y
    case BGEZ => Int32(x) >= 0
    case BLTZ => Int32(x) < 0
    case BGTZ => Int32(x) > 0
    case _ => Int32(x) <= 0
  }

  function Target(r: Registers, i: Instr, taken: bool): Word
    requires WellFormed(r)
  {
    Mod32(r[NEXT_PC] as int + if taken then 4 * (i.extra as int) else 4)
  }

  lemma BranchIssue(r: Registers, i: Instr)
    requires WellFormed(r)
    requires i.op == BEQ || i.op == BNE || i.op == BGEZ || i.op == BLTZ || i.op == BGTZ || i.op == BLEZ
    ensures Issue(r, i) == Plain(Nothing, Target(r, i, Condition(i.op, r[i.rs], r[i.rt])))
  {
    hide Signed, Int32;
    Int32Is(r[i.rs]);
  }

  /** The branches that link first: register 31 gets the address behind the delay slot, also for the test. */
  lemma LinkEffects(r: Registers, mem: Memory, present: set<nat>, i: Instr)
    requires WellFormed(r) && MemoryOk(mem)
    ensures
      var o, link := Exec(r, mem, present, i), Behind(r);
      var operand := Int32(if i.rs == 31 then link else r[i.rs]);
      && (i.op == BGEZAL ==> BranchesIf(r, mem, o, i, 31, link, operand >= 0))
      && (i.op == BLTZAL ==> BranchesIf(r, mem, o, i, 31, link, operand < 0))
  {
    hide Exec, Sets;
    if i.op == BGEZAL || i.op == BLTZAL {
      PlainSets(r, mem, present, i, 31, Issue(r, i).w.v, Issue(r, i).pc);
    }
  }

  /** The target of a jump: the upper four bits from the address behind the delay slot, the others from the index. */
  ghost predicate JumpsTo(r: Registers, i: Instr, target: nat)
    requires WellFormed(r)
  {
    var behind, index := Behind(r), Mod32(4 * (i.extra as int));
    target < 0x1_0000_0000 &&
    forall k: nat :: k < 32 ==> (Bit(target, k) <==> (k >= 28 && Bit(behind, k)) || Bit(index, k))
  }

  lemma JumpTargetIs(r: Registers, i: Instr)
    requires WellFormed(r)
    ensures JumpsTo(r, i, JumpTarget(Plus4(r[NEXT_PC]), i.extra))
  {
    hide Bit, And;
    var behind, index := Plus4(r[NEXT_PC]), Wrap(4 * i.extra);
    Pow2Of32();
    OrFits(And(behind, 0xF000_0000), index, 32);
    forall k: nat | k < 32
      ensures Bit(JumpTarget(behind, i.extra), k) <==> (k >= 28 && Bit(behind, k)) || Bit(index, k)
    {
      OrBit(And(behind, 0xF000_0000), index, k);
      AndBit(behind, 0xF000_0000, k);
      UpperBits(k);
    }
  }

  lemma UpperBits(k: nat)
    requires k < 32
    ensures Bit(0xF000_0000, k) <==> k >= 28
  {
    Pow2Of32();
    Pow2Adds(28, 4);
    assert Pow2(4) == 16;
    assert 0xF000_0000 == Pow2(32) - 1 - 0xFFF_FFFF && 0xFFF_FFFF == (Pow2(32) - 1) % Pow2(28);
    NotBit(0xFFF_FFFF, 32, k);
    LowBit(Pow2(32) - 1, 28, k);
    NotBit(0, 32, k);
    assert 0 / Pow2(k) == 0;
  }

  lemma SetsNext(r: Registers, mem: Memory, o: Outcome, n: nat, v: Word, next: Word)
    ensures Sets(r, mem, o, n, v, next) ==> o.Done? && |o.r| == NUM_REGS && o.r[NEXT_PC] == next
  {
  }

  lemma JumpEffects(r: Registers, mem: Memory, present: set<nat>, i: Instr)
    requires WellFormed(r) && MemoryOk(mem)
    ensures
      var o, link := Exec(r, mem, present, i), Behind(r);
      && (i.op == J ==>
           o.Done? && |o.r| == NUM_REGS && JumpsTo(r, i, o.r[NEXT_PC]) && Sets(r, mem, o, 0, 0, o.r[NEXT_PC]))
      && (i.op == JAL ==>
           o.Done? && |o.r| == NUM_REGS && JumpsTo(r, i, o.r[NEXT_PC]) && Sets(r, mem, o, 31, link, o.r[NEXT_PC]))
      && (i.op == JR ==> Sets(r, mem, o, 0, 0, r[i.rs]))
      && (i.op == JALR ==> Sets(r, mem, o, i.rd, link, if i.rs == i.rd then link else r[i.rs]))
  {
    hide Exec, Sets, JumpsTo, JumpTarget, And;
    SetsNext(r, mem, Exec(r, mem, present, i), 0, 0, JumpTarget(Plus4(r[NEXT_PC]), i.extra));
    SetsNext(r, mem, Exec(r, mem, present, i), 31, Behind(r), JumpTarget(Plus4(r[NEXT_PC]), i.extra));
    JumpTargetIs(r, i);
    if i.op == J || i.op == JR {
      PlainGoes(r, mem, present, i, Issue(r, i).pc);
    } else if i.op == JAL || i.op == JALR {
      PlainSets(r, mem, present, i, Issue(r, i).w.r, Issue(r, i).w.v, Issue(r, i).pc);
    }
  }

  // ---------- arithmetic ----------

  lemma Int32Is(x: Word)
    ensures Int32(x) == Signed(x) && Fits(Int32(x)) && Mod32(Int32(x)) == x
  {
  }

  lemma Wrapped(x: int)
    requires -W <= x < W
    ensures Fits(x) <==> x == Signed(Wrap(x))
    ensures Fits(x) ==> Int32(Wrap(x)) == x
  {
  }

  lemma Ranges(a: Word, b: Word)
    ensures -W <= Int32(a) + Int32(b) < W && -W <= Int32(a) - Int32(b) < W
  {
  }

  /** What `ADD`, `ADDI` and `SUB` come to in exact numbers. */
  function Exact(r: Registers, i: Instr): int
    requires WellFormed(r)
  {
    match i.op
    case ADDI => Int32(r[i.rs]) + Int32(i.extra)
    case SUB => Int32(r[i.rs]) - Int32(r[i.rt])
    case _ => Int32(r[i.rs]) + Int32(r[i.rt])
  }

  lemma OverflowIssue(r: Registers, i: Instr)
    requires WellFormed(r) && (i.op == ADD || i.op == ADDI || i.op == SUB)
    ensures Issue(r, i) ==
      if Fits(Exact(r, i)) then Plain(One(if i.op == ADDI then i.rt else i.rd, Wrap(Exact(r, i))), Plus4(r[NEXT_PC]))
      else Raises(Overflow, 0)
    ensures Fits(Exact(r, i)) ==> Int32(Wrap(Exact(r, i))) == Exact(r, i)
  {
    hide Signed, Int32, Wrap, Fits, Plus4;
    var b := if i.op == ADDI then i.extra else r[i.rt];
    Int32Is(r[i.rs]);
    Int32Is(b);
    Ranges(r[i.rs], b);
    Wrapped(Exact(r, i));
  }

  /** `ADD`, `ADDI` and `SUB`: the exact result in its register if it fits, else an overflow trap. */
  lemma OverflowEffects(r: Registers, mem: Memory, present: set<nat>, i: Instr) returns (v: Word)
    requires WellFormed(r) && MemoryOk(mem) && (i.op == ADD || i.op == ADDI || i.op == SUB)
    ensures
      var o, n := Exec(r, mem, present, i), if i.op == ADDI then i.rt else i.rd;
      var a, b := Int32(r[i.rs]), if i.op == ADDI then Int32(i.extra) else Int32(r[i.rt]);
      var exact := if i.op == SUB then a - b else a + b;
      if Fits(exact) then Int32(v) == exact && Sets(r, mem, o, n, v, Behind(r)) else Traps(r, mem, o, Overflow, 0)
  {
    hide Exec, Sets, Traps, Signed, Int32, Wrap, Fits, Plus4, Behind, Issue;
    OverflowIssue(r, i);
    BehindIs(r);
    v := 0;
    if Fits(Exact(r, i)) {
      v := Wrap(Exact(r, i));
      PlainSets(r, mem, present, i, if i.op == ADDI then i.rt else i.rd, v, Plus4(r[NEXT_PC]));
    } else {
      PlainTraps(r, mem, present, i, Overflow, 0);
    }
  }

  lemma BehindIs(r: Registers)
    requires |r| == NUM_REGS
    ensures Plus4(r[NEXT_PC]) == Behind(r)
  {
  }

  /** Sums and differences modulo 2^32, and the upper half word. */
  lemma SumEffects(r: Registers, mem: Memory, present: set<nat>, i: Instr)
    requires WellFormed(r) && MemoryOk(mem)
    ensures
      var o, a, b := Exec(r, mem, present, i), r[i.rs] as int, r[i.rt] as int;
      && (i.op == ADDU ==> Sets(r, mem, o, i.rd, Mod32(a + b), Behind(r)))
      && (i.op == ADDIU ==> Sets(r, mem, o, i.rt, Mod32(a + i.extra), Behind(r)))
      && (i.op == SUBU ==> Sets(r, mem, o, i.rd, Mod32(a - b), Behind(r)))
      && (i.op == LUI ==> Sets(r, mem, o, i.rt, Mod32(0x1_0000 * (i.extra as int)), Behind(r)))
  {
    hide Exec, Sets, Plus4, Behind, Issue, Mod32;
    BehindIs(r);
    SumIssue(r, i);
    match i.op
    case ADDU => PlainSets(r, mem, present, i, i.rd, Mod32(r[i.rs] as int + r[i.rt]), Plus4(r[NEXT_PC]));
    case ADDIU => PlainSets(r, mem, present, i, i.rt, Mod32(r[i.rs] as int + i.extra), Plus4(r[NEXT_PC]));
    case SUBU => PlainSets(r, mem, present, i, i.rd, Mod32(r[i.rs] as int - r[i.rt]), Plus4(r[NEXT_PC]));
    case LUI => PlainSets(r, mem, present, i, i.rt, Mod32(0x1_0000 * (i.extra as int)), Plus4(r[NEXT_PC]));
    case _ =>
  }

  lemma SumIssue(r: Registers, i: Instr)
    requires WellFormed(r)
    ensures
      var pc, a, b := Plus4(r[NEXT_PC]), r[i.rs] as int, r[i.rt] as int;
      && (i.op == ADDU ==> Issue(r, i) == Plain(One(i.rd, Mod32(a + b)), pc))
      && (i.op == ADDIU ==> Issue(r, i) == Plain(One(i.rt, Mod32(a + i.extra)), pc))
      && (i.op == SUBU ==> Issue(r, i) == Plain(One(i.rd, Mod32(a - b)), pc))
      && (i.op == LUI ==> Issue(r, i) == Plain(One(i.rt, Mod32(0x1_0000 * (i.extra as int))), pc))
  {
    hide Plus4, ShiftLeft;
    ShiftBy16(i.extra);
  }

  lemma ShiftBy16(x: Word)
    ensures ShiftLeft(x, 16) == Mod32(0x1_0000 * (x as int))
  {
    hide Pow2;
    TwoTo16();
  }

  lemma TwoTo16()
    ensures Pow2(16) == 0x1_0000
  {
    assert Pow2(4) == 16;
    Pow2Adds(4, 4);
    Pow2Adds(8, 8);
  }

  /** The order of signed and of unsigned numbers. */
  lemma CompareEffects(r: Registers, mem: Memory, present: set<nat>, i: Instr)
    requires WellFormed(r) && MemoryOk(mem)
    ensures
      var o, a, b := Exec(r, mem, present, i), r[i.rs], r[i.rt];
      && (i.op == SLT ==> Sets(r, mem, o, i.rd, if Int32(a) < Int32(b) then 1 else 0, Behind(r)))
      && (i.op == SLTI ==> Sets(r, mem, o, i.rt, if Int32(a) < Int32(i.extra) then 1 else 0, Behind(r)))
      && (i.op == SLTU ==> Sets(r, mem, o, i.rd, if a < b then 1 else 0, Behind(r)))
      && (i.op == SLTIU ==> Sets(r, mem, o, i.rt, if a < i.extra then 1 else 0, Behind(r)))
  {
    hide Exec, Sets, Plus4, Behind, Signed, Int32;
    BehindIs(r);
    Int32Is(r[i.rs]);
    Int32Is(r[i.rt]);
    Int32Is(i.extra);
    match i.op
    case SLT => PlainSets(r, mem, present, i, i.rd, Issue(r, i).w.v, Issue(r, i).pc);
    case SLTI => PlainSets(r, mem, present, i, i.rt, Issue(r, i).w.v, Issue(r, i).pc);
    case SLTU => PlainSets(r, mem, present, i, i.rd, Issue(r, i).w.v, Issue(r, i).pc);
    case SLTIU => PlainSets(r, mem, present, i, i.rt, Issue(r, i).w.v, Issue(r, i).pc);
    case _ =>
  }

  /** Moves from and to HI and LO. */
  lemma MoveEffects(r: Registers, mem: Memory, present: set<nat>, i: Instr)
    requires WellFormed(r) && MemoryOk(mem)
    ensures
      var o := Exec(r, mem, present, i);
      && (i.op == MFHI ==> Sets(r, mem, o, i.rd, r[HI], Behind(r)))
      && (i.op == MFLO ==> Sets(r, mem, o, i.rd, r[LO], Behind(r)))
      && (i.op == MTHI ==> Sets(r, mem, o, HI, r[i.rs], Behind(r)))
      && (i.op == MTLO ==> Sets(r, mem, o, LO, r[i.rs], Behind(r)))
  {
    hide Exec, Sets, Plus4, Behind;
    BehindIs(r);
    match i.op
    case MFHI => PlainSets(r, mem, present, i, i.rd, r[HI], Issue(r, i).pc);
    case MFLO => PlainSets(r, mem, present, i, i.rd, r[LO], Issue(r, i).pc);
    case MTHI => PlainSets(r, mem, present, i, HI, r[i.rs], Issue(r, i).pc);
    case MTLO => PlainSets(r, mem, present, i, LO, r[i.rs], Issue(r, i).pc);
    case _ =>
  }

  // ---------- logic and shifts ----------

  lemma AndIs(a: Word, b: Word, k: nat)
    requires k < 32
    ensures Bit(AndBits(a, b), k) <==> Bit(a, k) && Bit(b, k)
    ensures Bit(OrBits(a, b), k) <==> Bit(a, k) || Bit(b, k)
    ensures Bit(XorBits(a, b), k) <==> Bit(a, k) != Bit(b, k)
    ensures Bit(W - 1 - OrBits(a, b), k) <==> !Bit(a, k) && !Bit(b, k)
  {
    hide Bit, And, Pow2;
    Pow2Of32();
    AndBit(a, b, k);
    OrBit(a, b, k);
    XorBit(a, b, k);
    NotBit(OrBits(a, b), 32, k);
  }

  /** Bit by bit. */
  lemma LogicEffects(r: Registers, mem: Memory, present: set<nat>, i: Instr) returns (v: Word)
    requires WellFormed(r) && MemoryOk(mem) && (i.op == AND || i.op == OR || i.op == XOR || i.op == NOR)
    ensures Sets(r, mem, Exec(r, mem, present, i), i.rd, v, Behind(r))
    ensures forall k: nat :: k < 32 ==>
      var a, b := Bit(r[i.rs], k), Bit(r[i.rt], k);
      Bit(v, k) <==>
        if i.op == AND then a && b else if i.op == OR then a || b else if i.op == XOR then a != b else !a && !b
  {
    hide Exec, Sets, Bit, AndBits, OrBits, XorBits, Plus4, Behind;
    BehindIs(r);
    v := Issue(r, i).w.v;
    PlainSets(r, mem, present, i, i.rd, v, Issue(r, i).pc);
    forall k: nat | k < 32
      ensures
        var a, b := Bit(r[i.rs], k), Bit(r[i.rt], k);
        Bit(v, k) <==>
          if i.op == AND then a && b else if i.op == OR then a || b else if i.op == XOR then a != b else !a && !b
    {
      AndIs(r[i.rs], r[i.rt], k);
    }
  }

  /** The same with the sixteen bits of the immediate operand. */
  lemma ImmediateEffects(r: Registers, mem: Memory, present: set<nat>, i: Instr) returns (v: Word)
    requires WellFormed(r) && MemoryOk(mem) && (i.op == ANDI || i.op == ORI || i.op == XORI)
    ensures Sets(r, mem, Exec(r, mem, present, i), i.rt, v, Behind(r))
    ensures forall k: nat :: k < 32 ==>
      var a, x := Bit(r[i.rs], k), k < 16 && Bit(i.extra, k);
      Bit(v, k) <==> if i.op == ANDI then a && x else if i.op == ORI then a || x else a != x
  {
    hide Exec, Sets, Bit, AndBits, OrBits, XorBits, Plus4, Behind, Low16;
    BehindIs(r);
    v := Issue(r, i).w.v;
    PlainSets(r, mem, present, i, i.rt, v, Issue(r, i).pc);
    forall k: nat | k < 32
      ensures
        var a, x := Bit(r[i.rs], k), k < 16 && Bit(i.extra, k);
        Bit(v, k) <==> if i.op == ANDI then a && x else if i.op == ORI then a || x else a != x
    {
      AndIs(r[i.rs], Low16(i.extra), k);
      Low16Bit(i.extra, k);
    }
  }

  lemma Low16Bit(x: Word, k: nat)
    ensures Bit(Low16(x), k) <==> k < 16 && Bit(x, k)
  {
    hide Bit, Pow2;
    TwoTo16();
    LowBit(x, 16, k);
  }

  lemma FloorIs(x: int, p: nat)
    requires p >= 1 && Fits(x)
    ensures x / p * p <= x < (x / p + 1) * p && Fits(x / p)
  {
    var q := x / p;
    assert x == p * q + x % p;
    MultipleIsFar(p, q);
    assert q >= 1 ==> q * p >= q by {
      if q >= 1 {
        MultipleIsFar(q, p);
      }
    }
    assert q <= -1 ==> q * p <= q by {
      if q <= -1 {
        MultipleIsFar(-q, p);
        assert -q * p == 0 - q * p;
      }
    }
  }

  lemma ShiftedRight(x: Word, n: nat)
    ensures var v := ShiftRight(x, n); Int32(v) * Pow2(n) <= Int32(x) < (Int32(v) + 1) * Pow2(n)
  {
    hide Pow2, Signed;
    Int32Is(x);
    FloorIs(Int32(x), Pow2(n));
    Wrapped(Int32(x) / Pow2(n));
  }

  /** To the left modulo 2^32. */
  lemma ShiftLeftEffects(r: Registers, mem: Memory, present: set<nat>, i: Instr)
    requires WellFormed(r) && MemoryOk(mem)
    ensures
      var o, b := Exec(r, mem, present, i), r[i.rt] as int;
      && (i.op == SLL ==> Sets(r, mem, o, i.rd, Mod32(b * Pow2(i.extra)), Behind(r)))
      && (i.op == SLLV ==> Sets(r, mem, o, i.rd, Mod32(b * Pow2(r[i.rs] % 32)), Behind(r)))
  {
    hide Exec, Sets, Plus4, Behind, Pow2;
    BehindIs(r);
    match i.op
    case SLL => PlainSets(r, mem, present, i, i.rd, Issue(r, i).w.v, Issue(r, i).pc);
    case SLLV => PlainSets(r, mem, present, i, i.rd, Issue(r, i).w.v, Issue(r, i).pc);
    case _ =>
  }

  /** To the right rounding down, the sign copied in, for the arithmetic and the so-called logical shifts alike. */
  lemma ShiftRightEffects(r: Registers, mem: Memory, present: set<nat>, i: Instr) returns (v: Word)
    requires WellFormed(r) && MemoryOk(mem) && (i.op == SRA || i.op == SRL || i.op == SRAV || i.op == SRLV)
    ensures
      var p := Pow2(if i.op == SRA || i.op == SRL then i.extra else r[i.rs] % 32);
      && Int32(v) * p <= Int32(r[i.rt]) < (Int32(v) + 1) * p
      && Sets(r, mem, Exec(r, mem, present, i), i.rd, v, Behind(r))
  {
    hide Exec, Sets, Plus4, Behind, Pow2, ShiftRight, Int32;
    BehindIs(r);
    v := Issue(r, i).w.v;
    ShiftedRight(r[i.rt], if i.op == SRA || i.op == SRL then i.extra else r[i.rs] % 32);
    PlainSets(r, mem, present, i, i.rd, v, Issue(r, i).pc);
  }

  // ---------- products and quotients ----------

  /** HI and LO together hold the product, of signed numbers modulo 2^64 or of unsigned ones. */
  lemma ProductEffects(r: Registers, mem: Memory, present: set<nat>, i: Instr) returns (hi: Word, lo: Word)
    requires WellFormed(r) && MemoryOk(mem) && (i.op == MULT || i.op == MULTU)
    ensures SetsHiLo(r, mem, Exec(r, mem, present, i), hi, lo)
    ensures Double(hi, lo) == Product(Int32(r[i.rs]), Int32(r[i.rt]), i.op == MULT)
    ensures
      var a, b := r[i.rs] as int, r[i.rt] as int;
      hi * 0x1_0000_0000 + lo ==
        if i.op == MULT then Int32(r[i.rs]) * Int32(r[i.rt]) % 0x1_0000_0000_0000_0000 else a * b
  {
    hide Exec, SetsHiLo, Plus4, Int32, Signed;
    Int32Is(r[i.rs]);
    Int32Is(r[i.rt]);
    hi, lo := Issue(r, i).w.hi, Issue(r, i).w.lo;
    PlainHiLo(r, mem, present, i, hi, lo);
    ProductHalves(r[i.rs], r[i.rt], i.op == MULT);
  }

  lemma ProductHalves(a: Word, b: Word, signedArith: bool)
    ensures
      var p := Product(Signed(a), Signed(b), signedArith);
      && High(p) * 0x1_0000_0000 + Wrap(p) == p
      && p == if signedArith then Int32(a) * Int32(b) % 0x1_0000_0000_0000_0000 else (a as int) * b
  {
    var p := Product(Signed(a), Signed(b), signedArith);
    ProductBelow(a, b);
    assert AsWord(Signed(a)) == a && AsWord(Signed(b)) == b;
    assert 0 <= p < W * W;
    Halves(p);
  }

  lemma Halves(p: nat)
    requires p < W * W
    ensures High(p) * 0x1_0000_0000 + Wrap(p) == p
  {
    assert p / W < W;
  }

  /** The quotient rounds towards zero, and the rest has the sign of the dividend; dividing by 0 gives 0 and 0. */
  lemma QuotientEffects(r: Registers, mem: Memory, present: set<nat>, i: Instr) returns (q: int, rest: int)
    requires WellFormed(r) && MemoryOk(mem) && i.op == DIV
    ensures SetsHiLo(r, mem, Exec(r, mem, present, i), Mod32(rest), Mod32(q))
    ensures
      var a, b := Int32(r[i.rs]), Int32(r[i.rt]);
      if b == 0 then q == 0 && rest == 0
      else a == b * q + rest && Size(rest) < Size(b) && (a >= 0 ==> rest >= 0) && (a <= 0 ==> rest <= 0)
  {
    hide Exec, SetsHiLo, Plus4, Quotient;
    Int32Is(r[i.rs]);
    Int32Is(r[i.rt]);
    var a: int, b: int := Int32(r[i.rs]), Int32(r[i.rt]);
    q, rest := 0, 0;
    if r[i.rt] != 0 {
      q := Quotient(a, b);
      rest := a - b * q;
      QuotientIs(a, b);
    }
    PlainHiLo(r, mem, present, i, Issue(r, i).w.hi, Issue(r, i).w.lo);
  }

  function Size(x: int): int {
    if x < 0 then -x else x
  }

  lemma QuotientIs(a: int, b: int)
    requires b != 0
    ensures
      var rest := a - b * Quotient(a, b);
      Size(rest) < Size(b) && (a >= 0 ==> rest >= 0) && (a <= 0 ==> rest <= 0)
  {
    var m: int, n: int := Absolute(a), Absolute(b);
    var k: int := m / n;
    assert m == n * k + m % n;
    var q := Quotient(a, b);
    assert q == if (a < 0) == (b < 0) then k else -k;
    Signs(a, b, n, k, q);
  }

  lemma Signs(a: int, b: int, n: int, k: int, q: int)
    requires n == Size(b) && q == (if (a < 0) == (b < 0) then k else -k)
    ensures b * q == if a < 0 then 0 - n * k else n * k
  {
    if b < 0 {
      assert b * q == 0 - n * q;
    }
    assert n * (-k) == 0 - n * k;
  }

  lemma UnsignedQuotientEffects(r: Registers, mem: Memory, present: set<nat>, i: Instr) returns (q: nat, rest: nat)
    requires WellFormed(r) && MemoryOk(mem) && i.op == DIVU
    ensures SetsHiLo(r, mem, Exec(r, mem, present, i), rest, q)
    ensures
      var a, b := r[i.rs], r[i.rt];
      if b == 0 then q == 0 && rest == 0 else a == b * q + rest && rest < b
  {
    hide Exec, SetsHiLo, Plus4, Issue;
    q, rest := UnsignedQuotientIssue(r, i);
    PlainHiLo(r, mem, present, i, rest, q);
  }

  lemma UnsignedQuotientIssue(r: Registers, i: Instr) returns (q: Word, rest: Word)
    requires WellFormed(r) && i.op == DIVU
    ensures Issue(r, i) == Plain(Both(rest, q), Plus4(r[NEXT_PC]))
    ensures
      var a, b := r[i.rs], r[i.rt];
      if b == 0 then q == 0 && rest == 0 else a == b * q + rest && rest < b
  {
    hide Plus4;
    q, rest := 0, 0;
    if r[i.rt] != 0 {
      QuotientFits(r[i.rs], r[i.rt]);
      q, rest := r[i.rs] / r[i.rt], r[i.rs] % r[i.rt];
    }
  }

  lemma QuotientFits(a: nat, b: nat)
    requires b > 0
    ensures a == b * (a / b) + a % b && a / b <= a
  {
    var q := a / b;
    MultipleIsFar(q, b);
    assert a == b * q + a % b;
  }

  // ---------- memory ----------

  function Address(r: Registers, i: Instr): Word
    requires WellFormed(r)
  {
    Mod32(r[i.rs] as int + i.extra)
  }

  /** The page of the address is in memory. */
  predicate Inside(mem: Memory, addr: nat) {
    addr / F.PAGE_SIZE < |mem| / F.PAGE_SIZE
  }

  /** The next instruction will find `v` on its way into register `n`; everything else is as after doing nothing. */
  ghost predicate StartsLoad(r: Registers, mem: Memory, o: Outcome, n: nat, v: int) {
    && o.Done? && o.mem == mem && General(r, o.r, 0, 0) && Advances(r, o.r, Behind(r))
    && o.r[LOAD] == n && o.r[LOAD_VALUE] == v
  }

  /** Memory becomes `mem'`, no register changes. */
  ghost predicate Writes(r: Registers, mem': Memory, o: Outcome) {
    && o.Done? && o.mem == mem' && General(r, o.r, 0, 0) && Advances(r, o.r, Behind(r))
    && o.r[LOAD] == 0 && o.r[LOAD_VALUE] == 0
  }

  /** A page fault: the pending load is done, everything else stays. */
  ghost predicate Faults(r: Registers, o: Outcome, bad: int) {
    && o.Faulted? && General(r, o.r, 0, 0)
    && o.r[PC] == r[PC] && o.r[NEXT_PC] == r[NEXT_PC] && o.r[PREV_PC] == r[PREV_PC]
    && o.r[BAD_VADDR] == bad && o.r[LOAD] == 0 && o.r[LOAD_VALUE] == 0
  }

  lemma FinishesLoad(r: Registers, mem: Memory, n: Reg, v: Word)
    requires WellFormed(r)
    ensures StartsLoad(r, mem, Done(Finish(r, n, v, Plus4(r[NEXT_PC])), mem), n, v)
  {
  }

  lemma FinishesStore(r: Registers, mem': Memory)
    requires WellFormed(r)
    ensures Writes(r, mem', Done(Finish(r, 0, 0, Plus4(r[NEXT_PC])), mem'))
  {
  }

  lemma RaisesFault(r: Registers, bad: Word)
    requires WellFormed(r)
    ensures Faults(r, Faulted(Raised(r, bad)), bad)
  {
  }

  /** Reads of memory when every page is present. */
  lemma ReadsMemory(r: Registers, mem: Memory, i: Instr, addr: Word, size: nat)
    requires WellFormed(r) && MemoryOk(mem) && Issue(r, i) == Loads(addr, size)
    requires F.AccessSize(size) && F.Aligned(addr, size)
    ensures !Inside(mem, addr) ==> Faults(r, Exec(r, mem, Pages(mem), i), addr)
    ensures Inside(mem, addr) ==>
      && addr + size <= |mem|
      && StartsLoad(r, mem, Exec(r, mem, Pages(mem), i), i.rt, Loaded(i.op, F.Load(mem, addr, size), Bypass(r, i.rt)))
  {
    hide Compute, Finish, Raised, StartsLoad, Faults, Loaded, F.Load;
    RaisesFault(r, addr);
    if Inside(mem, addr) {
      assert IsPage(mem, addr / F.PAGE_SIZE);
      FineIsInside(mem, Pages(mem), addr, size);
      FinishesLoad(r, mem, i.rt, Loaded(i.op, F.Load(mem, addr, size), Bypass(r, i.rt)));
    }
  }

  lemma ByteEffects(r: Registers, mem: Memory, i: Instr) returns (v: Word)
    requires WellFormed(r) && MemoryOk(mem) && (i.op == LB || i.op == LBU)
    ensures
      var o, addr := Exec(r, mem, Pages(mem), i), Address(r, i);
      if !Inside(mem, addr) then Faults(r, o, addr)
      else
        && addr < |mem| && StartsLoad(r, mem, o, i.rt, v)
        && var b: int := mem[addr];
           if i.op == LBU then v == b else Int32(v) == b - if b >= 0x80 then 0x100 else 0
  {
    hide Exec, StartsLoad, Faults, F.Load, Issue, Address;
    LoadIssue(r, i);
    var addr := Address(r, i);
    ReadsMemory(r, mem, i, addr, 1);
    v := 0;
    if Inside(mem, addr) {
      F.LoadedValue(mem, addr, 1);
      v := Loaded(i.op, F.Load(mem, addr, 1), Bypass(r, i.rt));
    }
  }

  lemma LoadIssue(r: Registers, i: Instr)
    requires WellFormed(r)
    ensures
      var addr := Address(r, i);
      && (i.op == LB || i.op == LBU ==> Issue(r, i) == Loads(addr, 1))
      && (i.op == LH || i.op == LHU ==>
           Issue(r, i) == if addr % 2 == 0 then Loads(addr, 2) else Raises(AddressError, addr))
      && (i.op == LW ==> Issue(r, i) == if addr % 4 == 0 then Loads(addr, 4) else Raises(AddressError, addr))
      && (i.op == LWL || i.op == LWR ==> Issue(r, i) == if addr % 4 == 0 then Loads(addr, 4) else Aborts)
  {
  }

  lemma HalfEffects(r: Registers, mem: Memory, i: Instr) returns (v: Word)
    requires WellFormed(r) && MemoryOk(mem) && (i.op == LH || i.op == LHU)
    ensures
      var o, addr := Exec(r, mem, Pages(mem), i), Address(r, i);
      if addr % 2 != 0 then Traps(r, mem, o, AddressError, addr)
      else if !Inside(mem, addr) then Faults(r, o, addr)
      else
        && addr + 1 < |mem| && StartsLoad(r, mem, o, i.rt, v)
        && var m: seq<int> := mem;
           var u := m[addr] + 0x100 * m[addr + 1];
           if i.op == LHU then v == u else Int32(v) == u - if u >= 0x8000 then 0x1_0000 else 0
  {
    hide Exec, StartsLoad, Faults, Traps, F.Load, Issue, Address, Loaded, Int32;
    LoadIssue(r, i);
    var addr := Address(r, i);
    v := 0;
    if addr % 2 != 0 {
      PlainTraps(r, mem, Pages(mem), i, AddressError, addr);
    } else {
      ReadsMemory(r, mem, i, addr, 2);
      if Inside(mem, addr) {
        F.LoadedValue(mem, addr, 2);
        HalfValue(i.op, mem[addr], mem[addr + 1], Bypass(r, i.rt));
        v := Loaded(i.op, F.Load(mem, addr, 2), Bypass(r, i.rt));
      }
    }
  }

  lemma HalfValue(op: Op, low: int, high: int, kept: Word)
    requires 0 <= low < 0x100 && 0 <= high < 0x100 && (op == LH || op == LHU)
    ensures
      var u := low + 0x100 * high;
      var v := Loaded(op, u, kept);
      if op == LHU then v == u else Int32(v) == u - if u >= 0x8000 then 0x1_0000 else 0
  {
  }

  /** The number that four bytes hold. */
  function WordAt(mem: Memory, addr: nat): int
    requires addr + 3 < |mem|
  {
    var m: seq<int> := mem;
    m[addr] + 0x100 * m[addr + 1] + 0x1_0000 * m[addr + 2] + 0x100_0000 * m[addr + 3]
  }

  lemma LoadWord(mem: Memory, addr: nat)
    requires addr + 3 < |mem|
    ensures Wrap(F.Load(mem, addr, 4)) == WordAt(mem, addr) && WordAt(mem, addr) / 0x100_0000 == mem[addr + 3]
  {
    hide F.Load;
    F.LoadedValue(mem, addr, 4);
  }

  /** `LW`; also `LWL`, and `LWR` that takes one byte only, on aligned addresses; on others the simulator stops. */
  lemma WordEffects(r: Registers, mem: Memory, i: Instr) returns (v: Word)
    requires WellFormed(r) && MemoryOk(mem) && (i.op == LW || i.op == LWL || i.op == LWR)
    ensures
      var o, addr := Exec(r, mem, Pages(mem), i), Address(r, i);
      if addr % 4 != 0 then (if i.op == LW then Traps(r, mem, o, AddressError, addr) else o == Aborted)
      else if !Inside(mem, addr) then Faults(r, o, addr)
      else
        && addr + 3 < |mem| && StartsLoad(r, mem, o, i.rt, v)
        && var kept := if r[LOAD] == i.rt then r[LOAD_VALUE] else r[i.rt];
           v == if i.op == LWR then kept - kept % 0x100 + mem[addr + 3] else WordAt(mem, addr)
  {
    hide Exec, StartsLoad, Faults, Traps, F.Load, WordAt, Issue, Address;
    LoadIssue(r, i);
    var addr := Address(r, i);
    v := 0;
    if addr % 4 != 0 {
      if i.op == LW {
        PlainTraps(r, mem, Pages(mem), i, AddressError, addr);
      } else {
        ExecAborts(r, mem, Pages(mem), i);
      }
    } else {
      ReadsMemory(r, mem, i, addr, 4);
      if Inside(mem, addr) {
        LoadWord(mem, addr);
        v := Loaded(i.op, F.Load(mem, addr, 4), Bypass(r, i.rt));
      }
    }
  }

  lemma ExecAborts(r: Registers, mem: Memory, present: set<nat>, i: Instr)
    requires WellFormed(r) && MemoryOk(mem) && Issue(r, i) == Aborts
    ensures Exec(r, mem, present, i) == Aborted
  {
    hide Compute;
  }

  /** Writes of memory when every page is present. */
  lemma WritesMemory(r: Registers, mem: Memory, i: Instr, addr: Word, size: nat, value: Word)
    requires WellFormed(r) && MemoryOk(mem) && Issue(r, i) == Stores(addr, size, value) && F.AccessSize(size)
    ensures
      var o := Exec(r, mem, Pages(mem), i);
      if !F.Aligned(addr, size) then Traps(r, mem, o, AddressError, addr)
      else if !Inside(mem, addr) then Faults(r, o, addr)
      else addr + size <= |mem| && Writes(r, F.Store(mem, addr, size, value), o)
  {
    hide Compute, Finish, Raised, Writes, Faults, Traps, F.Store;
    RaisesFault(r, addr);
    RaisesTrap(r, mem, AddressError, addr);
    if F.Aligned(addr, size) && Inside(mem, addr) {
      assert IsPage(mem, addr / F.PAGE_SIZE);
      FineIsInside(mem, Pages(mem), addr, size);
      FinishesStore(r, F.Store(mem, addr, size, value));
    }
  }

  /** The bytes from `addr` on are those of `value`, least significant first; all others stay. */
  ghost predicate Stored(mem: Memory, mem': Memory, addr: nat, size: nat, value: int) {
    && |mem| == |mem'| && addr + size <= |mem|
    && (size >= 1 ==> mem'[addr] == value % 0x100)
    && (size >= 2 ==> mem'[addr + 1] == value / 0x100 % 0x100)
    && (size >= 4 ==> mem'[addr + 2] == value / 0x1_0000 % 0x100 && mem'[addr + 3] == value / 0x100_0000 % 0x100)
    && forall a :: 0 <= a < |mem| && !(addr <= a < addr + size) ==> mem'[a] == mem[a]
  }

  lemma StoreIs(mem: Memory, addr: nat, size: nat, value: int)
    requires F.AccessSize(size) && addr + size <= |mem|
    ensures Stored(mem, F.Store(mem, addr, size, value), addr, size, value)
  {
    F.Powers();
    hide F.Pow256, F.Bytes, F.Digit;
    F.StoredByte(mem, addr, size, value, 0);
    if size >= 2 {
      F.StoredByte(mem, addr, size, value, 1);
    }
    if size == 4 {
      F.StoredByte(mem, addr, size, value, 2);
      F.StoredByte(mem, addr, size, value, 3);
    }
  }

  lemma StoreEffects(r: Registers, mem: Memory, i: Instr) returns (mem': Memory)
    requires WellFormed(r) && MemoryOk(mem) && (i.op == SB || i.op == SH || i.op == SW)
    ensures
      var o, addr := Exec(r, mem, Pages(mem), i), Address(r, i);
      var size := if i.op == SB then 1 else if i.op == SH then 2 else 4;
      if addr % size != 0 then Traps(r, mem, o, AddressError, addr)
      else if !Inside(mem, addr) then Faults(r, o, addr)
      else Stored(mem, mem', addr, size, r[i.rt]) && Writes(r, mem', o)
  {
    hide Exec, Writes, Faults, Traps, F.Store, Stored;
    var addr, size := Address(r, i), if i.op == SB then 1 else if i.op == SH then 2 else 4;
    WritesMemory(r, mem, i, addr, size, r[i.rt]);
    mem' := mem;
    if addr % size == 0 && Inside(mem, addr) {
      mem' := F.Store(mem, addr, size, r[i.rt]);
      StoreIs(mem, addr, size, r[i.rt]);
    }
  }

  /** `SWL` and `SWR` on aligned addresses: the whole word, or its last byte; on others the simulator stops. */
  lemma MergeEffects(r: Registers, mem: Memory, i: Instr) returns (mem': Memory)
    requires WellFormed(r) && MemoryOk(mem) && (i.op == SWL || i.op == SWR)
    ensures
      var o, addr := Exec(r, mem, Pages(mem), i), Address(r, i);
      if addr % 4 != 0 then o == Aborted
      else if !Inside(mem, addr) then Faults(r, o, addr)
      else
        && addr + 3 < |mem| && Writes(r, mem', o)
        && if i.op == SWL then Stored(mem, mem', addr, 4, r[i.rt]) else Stored(mem, mem', addr + 3, 1, r[i.rt])
  {
    hide Exec, Writes, Faults, F.Store, F.Load, Stored, Merged;
    var addr := Address(r, i);
    mem' := mem;
    if addr % 4 != 0 {
      ExecAborts(r, mem, Pages(mem), i);
    } else {
      MergesMemory(r, mem, i, addr);
      if Inside(mem, addr) {
        mem' := F.Store(mem, addr, 4, Merged(i.op, F.Load(mem, addr, 4), r[i.rt]));
        MergedIs(mem, addr, i.op, r[i.rt]);
      }
    }
  }

  lemma MergesMemory(r: Registers, mem: Memory, i: Instr, addr: Word)
    requires WellFormed(r) && MemoryOk(mem) && Issue(r, i) == Merges(addr) && addr % 4 == 0
    ensures
      var o := Exec(r, mem, Pages(mem), i);
      if !Inside(mem, addr) then Faults(r, o, addr)
      else addr + 4 <= |mem| && Writes(r, F.Store(mem, addr, 4, Merged(i.op, F.Load(mem, addr, 4), r[i.rt])), o)
  {
    hide Compute, Finish, Raised, Writes, Faults, F.Store, F.Load, Merged;
    RaisesFault(r, addr);
    if Inside(mem, addr) {
      assert IsPage(mem, addr / F.PAGE_SIZE);
      FineIsInside(mem, Pages(mem), addr, 4);
      FinishesStore(r, F.Store(mem, addr, 4, Merged(i.op, F.Load(mem, addr, 4), r[i.rt])));
    }
  }

  lemma MergedIs(mem: Memory, addr: nat, op: Op, b: Word)
    requires addr + 3 < |mem| && (op == SWL || op == SWR)
    ensures
      var mem' := F.Store(mem, addr, 4, Merged(op, F.Load(mem, addr, 4), b));
      if op == SWL then Stored(mem, mem', addr, 4, b) else Stored(mem, mem', addr + 3, 1, b)
  {
    hide F.Load, F.Store, Merged;
    StoreIs(mem, addr, 4, Merged(op, F.Load(mem, addr, 4), b));
    MergedValue(mem, addr, op, b);
    FourDigits(mem[addr], mem[addr + 1], mem[addr + 2], b % 0x100);
  }

  lemma MergedValue(mem: Memory, addr: nat, op: Op, b: Word)
    requires addr + 3 < |mem| && (op == SWL || op == SWR)
    ensures
      var m: seq<int> := mem;
      Merged(op, F.Load(mem, addr, 4), b) ==
        if op == SWL then b
        else m[addr] + 0x100 * m[addr + 1] + 0x1_0000 * m[addr + 2] + 0x100_0000 * (b % 0x100)
  {
    hide F.Load;
    F.LoadedValue(mem, addr, 4);
    LowThree(mem[addr], mem[addr + 1], mem[addr + 2], mem[addr + 3]);
  }

  lemma LowThree(a: int, b: int, c: int, d: int)
    requires 0 <= a < 0x100 && 0 <= b < 0x100 && 0 <= c < 0x100
    ensures
      var low := a + 0x100 * b + 0x1_0000 * c;
      && (low + 0x100_0000 * d) % 0x100_0000 == low
      && (low + 0x100_0000 * d - 0x1_0000_0000) % 0x100_0000 == low
  {
    var low := a + 0x100 * b + 0x1_0000 * c;
    ModulusIsUnique(low + 0x100_0000 * d, 0x100_0000, d, low);
    ModulusIsUnique(low + 0x100_0000 * d - 0x1_0000_0000, 0x100_0000, d - 0x100, low);
  }

  lemma FourDigits(a: int, b: int, c: int, d: int)
    requires 0 <= a < 0x100 && 0 <= b < 0x100 && 0 <= c < 0x100 && 0 <= d < 0x100
    ensures
      var x := a + 0x100 * b + 0x1_0000 * c + 0x100_0000 * d;
      x % 0x100 == a && x / 0x100 % 0x100 == b && x / 0x1_0000 % 0x100 == c && x / 0x100_0000 % 0x100 == d
  {
    var x := a + 0x100 * b + 0x1_0000 * c + 0x100_0000 * d;
    ModulusIsUnique(x, 0x100, b + 0x100 * c + 0x1_0000 * d, a);
    QuotientIsUnique(x, 0x100, b + 0x100 * c + 0x1_0000 * d, a);
    ModulusIsUnique(b + 0x100 * c + 0x1_0000 * d, 0x100, c + 0x100 * d, b);
    QuotientIsUnique(x, 0x1_0000, c + 0x100 * d, a + 0x100 * b);
    ModulusIsUnique(c + 0x100 * d, 0x100, d, c);
    QuotientIsUnique(x, 0x100_0000, d, a + 0x100 * b + 0x1_0000 * c);
  }

  // ---------- exceptions and the fetch ----------

  lemma ExceptionEffects(r: Registers, mem: Memory, present: set<nat>, i: Instr)
    requires WellFormed(r) && MemoryOk(mem)
    ensures i.op == SYSCALL ==> Traps(r, mem, Exec(r, mem, present, i), Syscall, 0)
    ensures i.op == RES || i.op == UNIMP ==> Traps(r, mem, Exec(r, mem, present, i), IllegalInstr, 0)
  {
    hide Exec, Traps;
    match i.op
    case SYSCALL => PlainTraps(r, mem, present, i, Syscall, 0);
    case RES => PlainTraps(r, mem, present, i, IllegalInstr, 0);
    case UNIMP => PlainTraps(r, mem, present, i, IllegalInstr, 0);
    case _ =>
  }

  /** The instruction executed is the one that the four bytes at the program counter encode. */
  lemma FetchEffects(r: Registers, mem: Memory, decode: Word -> Instr)
    requires WellFormed(r) && MemoryOk(mem)
    ensures
      var o, pc := Attempt(r, mem, Pages(mem), decode), r[PC];
      if pc % 4 != 0 then Traps(r, mem, o, AddressError, pc)
      else if !Inside(mem, pc) then Faults(r, o, pc)
      else pc + 3 < |mem| && o == Exec(r, mem, Pages(mem), decode(Mod32(WordAt(mem, pc))))
  {
    hide Exec, Raised, Traps, Faults, F.Load, WordAt;
    RaisesFault(r, r[PC]);
    RaisesTrap(r, mem, AddressError, r[PC]);
    if r[PC] % 4 == 0 && Inside(mem, r[PC]) {
      assert IsPage(mem, r[PC] / F.PAGE_SIZE);
      FineIsInside(mem, Pages(mem), r[PC], 4);
      LoadWord(mem, r[PC]);
    }
  }
}
