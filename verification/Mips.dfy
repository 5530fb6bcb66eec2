/** The simulated processor: registers, delayed loads, and one instruction at a time over a flat memory. */
module Mips {
  import opened Numbers
  import opened Multiplication
  import F = FlatMemory

  const PAGE_SIZE := F.PAGE_SIZE

  const RET_ADDR := 31
  const HI := 32
  const LO := 33
  const PC := 34
  const NEXT_PC := 35
  const PREV_PC := 36
  const LOAD := 37
  const LOAD_VALUE := 38
  const BAD_VADDR := 39
  const NUM_REGS := 40

  type Reg = x: int | 0 <= x < 32
  type Memory = seq<F.byte>
  type Registers = seq<Word>

  datatype Op =
    | ADD | ADDI | ADDIU | ADDU | AND | ANDI | BEQ | BGEZ | BGEZAL | BGTZ | BLEZ | BLTZ | BLTZAL | BNE
    | DIV | DIVU | J | JAL | JALR | JR | LB | LBU | LH | LHU | LUI | LW | LWL | LWR
    | MFHI | MFLO | MTHI | MTLO | MULT | MULTU | NOR | OR | ORI | SB | SH | SLL | SLLV
    | SLT | SLTI | SLTIU | SLTU | SRA | SRAV | SRL | SRLV | SUB | SUBU | SW | SWL | SWR
    | SYSCALL | XOR | XORI | RES | UNIMP

  datatype Instr = Instr(op: Op, rs: Reg, rt: Reg, rd: Reg, extra: Word)

  datatype Exception = Overflow | AddressError | PageFault | Syscall | IllegalInstr

  // ---------- 32-bit arithmetic ----------

  function Wrap(x: int): Word {
    x % W
  }

  function Plus4(x: Word): Word {
    Wrap(x as int + 4)
  }

  function AndBits(a: Word, b: Word): Word {
    And(a, b)
  }

  function OrBits(a: Word, b: Word): Word {
    Pow2Of32();
    OrFits(a, b, 32);
    a + b - And(a, b)
  }

  function XorBits(a: Word, b: Word): Word {
    Pow2Of32();
    OrFits(a, b, 32);
    a + b - 2 * And(a, b)
  }

  function Low16(x: Word): Word {
    x % 0x1_0000
  }

  function ShiftLeft(x: Word, n: nat): Word {
    Wrap(x * Pow2(n))
  }

  /** Shifts of an `int` to the right copy the sign. */
  function ShiftRight(x: Word, n: nat): Word {
    Wrap(Signed(x) / Pow2(n))
  }

  function Absolute(x: int): nat {
    if x < 0 then -x else x
  }

  /** Division that rounds towards zero. */
  function Quotient(a: int, b: int): int
    requires b != 0
  {
    var q := Absolute(a) / Absolute(b);
    if (a < 0) == (b < 0) then q else -q
  }

  function High(x: int): Word {
    x / W % W
  }

  // ---------- what an instruction sets out to do ----------

  datatype Writes = Nothing | One(r: nat, v: Word) | Both(hi: Word, lo: Word)

  datatype Action =
    | Plain(w: Writes, pc: Word)                      // registers only
    | Loads(addr: Word, size: nat)                    // a delayed load
    | Stores(addr: Word, size: nat, value: Word)
    | Merges(addr: Word)                              // read a word, change a part, write it back
    | Raises(e: Exception, bad: Word)
    | Aborts                                          // an assertion of the simulator

  predicate WellFormed(r: Registers) {
    |r| == NUM_REGS && r[0] == 0 && r[LOAD] < 32
  }

  function Branch(next: Word, extra: Word, taken: bool): Word {
    if taken then Wrap(next + 4 * extra) else Plus4(next)
  }

  /** The part of `ExecInstruction` before memory is touched, from the registers as they are. */
  function Issue(r: Registers, i: Instr): (action: Action)
    requires WellFormed(r)
    ensures action.Plain? && action.w.One? ==> action.w.r <= LO
    ensures action.Loads? || action.Stores? ==> F.AccessSize(action.size)
  {
    Compute(i, r[i.rs], r[i.rt], r[HI], r[LO], r[NEXT_PC])
  }

  /** The same from the values it may use: those of registers `rs` and `rt`, HI, LO and the next program counter. */
  function Compute(i: Instr, a: Word, b: Word, hi: Word, lo: Word, next: Word): (action: Action)
    ensures action.Plain? && action.w.One? ==> action.w.r <= LO
    ensures action.Loads? || action.Stores? ==> F.AccessSize(action.size)
  {
    var pc := Plus4(next);
    var addr := Wrap(a + i.extra);
    match i.op
    case ADD =>
      var sum := Signed(a) + Signed(b);
      if sum == Signed(Wrap(sum)) then Plain(One(i.rd, Wrap(sum)), pc) else Raises(Overflow, 0)
    case ADDI =>
      var sum := Signed(a) + Signed(i.extra);
      if sum == Signed(Wrap(sum)) then Plain(One(i.rt, Wrap(sum)), pc) else Raises(Overflow, 0)
    case SUB =>
      var diff := Signed(a) - Signed(b);
      if diff == Signed(Wrap(diff)) then Plain(One(i.rd, Wrap(diff)), pc) else Raises(Overflow, 0)
    case ADDIU => Plain(One(i.rt, Wrap(a + i.extra)), pc)
    case ADDU => Plain(One(i.rd, Wrap(a + b)), pc)
    case SUBU => Plain(One(i.rd, Wrap(a - b)), pc)
    case AND => Plain(One(i.rd, AndBits(a, b)), pc)
    case ANDI => Plain(One(i.rt, AndBits(a, Low16(i.extra))), pc)
    case OR => Plain(One(i.rd, OrBits(a, b)), pc)
    case ORI => Plain(One(i.rt, OrBits(a, Low16(i.extra))), pc)
    case XOR => Plain(One(i.rd, XorBits(a, b)), pc)
    case XORI => Plain(One(i.rt, XorBits(a, Low16(i.extra))), pc)
    case NOR => Plain(One(i.rd, W - 1 - OrBits(a, b)), pc)
    case BEQ => Plain(Nothing, Branch(next, i.extra, a == b))
    case BNE => Plain(Nothing, Branch(next, i.extra, a != b))
    case BGEZ => Plain(Nothing, Branch(next, i.extra, Signed(a) >= 0))
    case BLTZ => Plain(Nothing, Branch(next, i.extra, Signed(a) < 0))
    case BGTZ => Plain(Nothing, Branch(next, i.extra, Signed(a) > 0))
    case BLEZ => Plain(Nothing, Branch(next, i.extra, Signed(a) <= 0))
    case BGEZAL => Plain(One(RET_ADDR, pc), Branch(next, i.extra, Signed(Linked(i.rs, a, RET_ADDR, pc)) >= 0))
    case BLTZAL => Plain(One(RET_ADDR, pc), Branch(next, i.extra, Signed(Linked(i.rs, a, RET_ADDR, pc)) < 0))
    case J => Plain(Nothing, JumpTarget(pc, i.extra))
    case JAL => Plain(One(RET_ADDR, pc), JumpTarget(pc, i.extra))
    case JR => Plain(Nothing, a)
    case JALR => Plain(One(i.rd, pc), Linked(i.rs, a, i.rd, pc))
    case DIV =>
      if b == 0 then Plain(Both(0, 0), pc)
      else
        var q := Quotient(Signed(a), Signed(b));
        Plain(Both(Wrap(Signed(a) - Signed(b) * q), Wrap(q)), pc)
    case DIVU => if b == 0 then Plain(Both(0, 0), pc) else Plain(Both(a % b, Wrap(a / b)), pc)
    case MULT => Plain(ProductOf(Signed(a), Signed(b), true), pc)
    case MULTU => Plain(ProductOf(Signed(a), Signed(b), false), pc)
    case MFHI => Plain(One(i.rd, hi), pc)
    case MFLO => Plain(One(i.rd, lo), pc)
    case MTHI => Plain(One(HI, a), pc)
    case MTLO => Plain(One(LO, a), pc)
    case LUI => Plain(One(i.rt, ShiftLeft(i.extra, 16)), pc)
    case SLL => Plain(One(i.rd, ShiftLeft(b, i.extra)), pc)
    case SLLV => Plain(One(i.rd, ShiftLeft(b, a % 32)), pc)
    case SRA => Plain(One(i.rd, ShiftRight(b, i.extra)), pc)
    case SRAV => Plain(One(i.rd, ShiftRight(b, a % 32)), pc)
    case SRL => Plain(One(i.rd, ShiftRight(b, i.extra)), pc)
    case SRLV => Plain(One(i.rd, ShiftRight(b, a % 32)), pc)
    case SLT => Plain(One(i.rd, if Signed(a) < Signed(b) then 1 else 0), pc)
    case SLTU => Plain(One(i.rd, if a < b then 1 else 0), pc)
    case SLTI => Plain(One(i.rt, if Signed(a) < Signed(i.extra) then 1 else 0), pc)
    case SLTIU => Plain(One(i.rt, if a < i.extra then 1 else 0), pc)
    case LB => Loads(addr, 1)
    case LBU => Loads(addr, 1)
    case LH => if addr % 2 == 0 then Loads(addr, 2) else Raises(AddressError, addr)
    case LHU => if addr % 2 == 0 then Loads(addr, 2) else Raises(AddressError, addr)
    case LW => if addr % 4 == 0 then Loads(addr, 4) else Raises(AddressError, addr)
    case LWL => if addr % 4 == 0 then Loads(addr, 4) else Aborts
    case LWR => if addr % 4 == 0 then Loads(addr, 4) else Aborts
    case SB => Stores(addr, 1, b)
    case SH => Stores(addr, 2, b)
    case SW => Stores(addr, 4, b)
    case SWL => if addr % 4 == 0 then Merges(addr) else Aborts
    case SWR => if addr % 4 == 0 then Merges(addr) else Aborts
    case SYSCALL => Raises(Syscall, 0)
    case RES => Raises(IllegalInstr, 0)
    case UNIMP => Raises(IllegalInstr, 0)
  }

  /** Register `rs` as seen after the link was written to `dst`. */
  function Linked(rs: Reg, a: Word, dst: nat, link: Word): Word {
    if rs == dst then link else a
  }

  function JumpTarget(pc: Word, extra: Word): Word {
    OrBits(AndBits(pc, 0xF000_0000), Wrap(4 * extra))
  }

  function ProductOf(a: Int, b: Int, signedArith: bool): Writes {
    var p := Product(a, b, signedArith);
    Both(High(p), Wrap(p))
  }

  /** What becomes of a value read from memory; `kept` is what register `rt` holds or is about to hold. */
  function Loaded(op: Op, value: int, kept: Word): Word {
    match op
    case LB => Wrap(if value % 0x100 >= 0x80 then value % 0x100 - 0x100 else value % 0x100)
    case LBU => value % 0x100
    case LH => Wrap(if value % 0x1_0000 >= 0x8000 then value % 0x1_0000 - 0x1_0000 else value % 0x1_0000)
    case LHU => value % 0x1_0000
    case LWR => kept - kept % 0x100 + Wrap(value) / 0x100_0000
    case _ => Wrap(value)
  }

  function Merged(op: Op, value: int, b: Word): Word {
    if op == SWR then value % 0x100_0000 + b % 0x100 * 0x100_0000 else b
  }

  /** The bypass of `LWL` and `LWR`: a load still on its way into `rt` counts. */
  function Bypass(r: Registers, rt: Reg): Word
    requires WellFormed(r)
  {
    if r[LOAD] == rt then r[LOAD_VALUE] else r[rt]
  }

  // ---------- execution ----------

  function Apply(r: Registers, w: Writes): (r': Registers)
    requires WellFormed(r) && (w.One? ==> w.r <= LO)
    ensures |r'| == NUM_REGS && forall k :: LO < k < NUM_REGS ==> r'[k] == r[k]
  {
    match w
    case Nothing => r
    case One(n, v) => r[n := v]
    case Both(hi, lo) => r[HI := hi][LO := lo]
  }

  function DelayedLoad(r: Registers, nextReg: Reg, nextValue: Word): (r': Registers)
    requires |r| == NUM_REGS && r[LOAD] < 32
    ensures WellFormed(r')
  {
    r[r[LOAD] := r[LOAD_VALUE]][LOAD := nextReg][LOAD_VALUE := nextValue][0 := 0]
  }

  /** The end of `ExecInstruction`: the delayed load of the last instruction, and the program counters. */
  function Finish(r: Registers, nextReg: Reg, nextValue: Word, pc: Word): (r': Registers)
    requires |r| == NUM_REGS && r[LOAD] < 32
    ensures WellFormed(r')
  {
    var d := DelayedLoad(r, nextReg, nextValue);
    d[PREV_PC := d[PC]][PC := d[NEXT_PC]][NEXT_PC := pc]
  }

  /** `RaiseException` up to the call of the handler. */
  function Raised(r: Registers, bad: Word): (r': Registers)
    requires WellFormed(r)
    ensures WellFormed(r')
  {
    DelayedLoad(r[BAD_VADDR := bad], 0, 0)
  }

  datatype Outcome =
    | Done(r: Registers, mem: Memory)
    | Trapped(e: Exception, r: Registers, mem: Memory)   // any exception but a page fault
    | Faulted(r: Registers)                              // memory is as before
    | Aborted

  /** Whole pages. */
  predicate MemoryOk(mem: Memory) {
    |mem| % PAGE_SIZE == 0
  }

  datatype Translation = Fine | Fails(e: Exception)

  function Translate(mem: Memory, present: set<nat>, addr: Word, size: nat): Translation {
    if !F.Aligned(addr, size) then Fails(AddressError)
    else if addr / PAGE_SIZE in present && addr / PAGE_SIZE < |mem| / PAGE_SIZE then Fine
    else Fails(PageFault)
  }

  function Failed(e: Exception, r: Registers, bad: Word, mem: Memory): Outcome
    requires WellFormed(r)
  {
    if e == PageFault then Faulted(Raised(r, bad)) else Trapped(e, Raised(r, bad), mem)
  }

  lemma PageEnd(length: nat, p: nat)
    requires length % PAGE_SIZE == 0 && p < length / PAGE_SIZE
    ensures p * PAGE_SIZE + PAGE_SIZE <= length
  {
  }

  lemma FineIsInside(mem: Memory, present: set<nat>, addr: Word, size: nat)
    requires MemoryOk(mem) && F.AccessSize(size) && Translate(mem, present, addr, size) == Fine
    ensures addr + size <= |mem|
  {
    F.WithinPage(addr, size);
    PageEnd(|mem|, addr / PAGE_SIZE);
  }

  /** `ExecInstruction` with the pages `present` within reach. */
  function Exec(r: Registers, mem: Memory, present: set<nat>, i: Instr): Outcome
    requires WellFormed(r) && MemoryOk(mem)
  {
    var pc := Plus4(r[NEXT_PC]);
    match Issue(r, i)
    case Plain(w, pcAfter) => Done(Finish(Apply(r, w), 0, 0, pcAfter), mem)
    case Raises(e, bad) => Trapped(e, Raised(r, bad), mem)
    case Aborts => Aborted
    case Loads(addr, size) =>
      (match Translate(mem, present, addr, size)
       case Fails(e) => Failed(e, r, addr, mem)
       case Fine =>
         FineIsInside(mem, present, addr, size);
         Done(Finish(r, i.rt, Loaded(i.op, F.Load(mem, addr, size), Bypass(r, i.rt)), pc), mem))
    case Stores(addr, size, value) =>
      (match Translate(mem, present, addr, size)
       case Fails(e) => Failed(e, r, addr, mem)
       case Fine =>
         FineIsInside(mem, present, addr, size);
         Done(Finish(r, 0, 0, pc), F.Store(mem, addr, size, value)))
    case Merges(addr) =>
      (match Translate(mem, present, addr, 4)
       case Fails(e) => Failed(e, r, addr, mem)
       case Fine =>
         FineIsInside(mem, present, addr, 4);
         Done(Finish(r, 0, 0, pc), F.Store(mem, addr, 4, Merged(i.op, F.Load(mem, addr, 4), r[i.rt]))))
  }

  /** One pass of the machine loop: fetch at `PC`, decode, execute. */
  function Attempt(r: Registers, mem: Memory, present: set<nat>, decode: Word -> Instr): Outcome
    requires WellFormed(r) && MemoryOk(mem)
  {
    match Translate(mem, present, r[PC], 4)
    case Fails(e) => Failed(e, r, r[PC], mem)
    case Fine =>
      FineIsInside(mem, present, r[PC], 4);
      Exec(r, mem, present, decode(Wrap(F.Load(mem, r[PC], 4))))
  }

  // ---------- which registers an instruction depends on ----------

  predicate ReadsRs(op: Op) {
    match op
    case J | JAL | LUI | SLL | SRA | SRL | MFHI | MFLO | SYSCALL | RES | UNIMP => false
    case _ => true
  }

  /** The bypass makes `LWR` independent of register `rt` itself. */
  predicate ReadsRt(op: Op) {
    match op
    case ADD | ADDU | AND | BEQ | BNE | DIV | DIVU | MULT | MULTU | NOR | OR | SB | SH | SLL | SLLV | SLT | SLTU => true
    case SRA | SRAV | SRL | SRLV | SUB | SUBU | SW | SWL | SWR | XOR => true
    case _ => false
  }

  predicate Reads(i: Instr, reg: Reg) {
    (ReadsRs(i.op) && reg == i.rs) || (ReadsRt(i.op) && reg == i.rt)
  }

  /** The two register files agree on what `i` reads directly. */
  predicate AgreeFor(r1: Registers, r2: Registers, i: Instr) {
    && WellFormed(r1) && WellFormed(r2)
    && (ReadsRs(i.op) ==> r1[i.rs] == r2[i.rs])
    && (ReadsRt(i.op) ==> r1[i.rt] == r2[i.rt])
    && r1[HI] == r2[HI] && r1[LO] == r2[LO] && r1[NEXT_PC] == r2[NEXT_PC]
  }

  lemma IssueAgrees(r1: Registers, r2: Registers, i: Instr)
    requires AgreeFor(r1, r2, i)
    ensures Issue(r1, i) == Issue(r2, i)
  {
    hide Wrap, Plus4, AndBits, OrBits, XorBits, Low16, ShiftLeft, ShiftRight, Quotient, High, Branch, JumpTarget,
      ProductOf, Signed, Pow2;
  }

  /** The general register that `i` writes at once, not as a delayed load. */
  function Target(i: Instr): Reg {
    match i.op
    case ADD | ADDU | AND | JALR | MFHI | MFLO | NOR | OR | SLL | SLLV | SLT | SLTU => i.rd
    case SRA | SRAV | SRL | SRLV | SUB | SUBU | XOR => i.rd
    case ADDI | ADDIU | ANDI | LUI | ORI | SLTI | SLTIU | XORI => i.rt
    case BGEZAL | BLTZAL | JAL => RET_ADDR
    case _ => 0
  }

  lemma IssueTarget(r: Registers, i: Instr)
    requires WellFormed(r)
    ensures var a := Issue(r, i); a.Plain? && a.w.One? ==> a.w.r == Target(i) || a.w.r == HI || a.w.r == LO
  {
    hide Wrap, Plus4, AndBits, OrBits, XorBits, Low16, ShiftLeft, ShiftRight, Quotient, High, Branch, JumpTarget,
      Signed, Pow2;
  }
}
