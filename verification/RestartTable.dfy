/** For each opcode, the exact condition on its fields under which a restart behind a load into `l` is never seen. */
module RestartTable {
  import opened Numbers
  import opened Options
  import opened Multiplication
  import F = FlatMemory
  import opened Mips
  import opened Restarts
  import opened RestartExact

  /** Whether the instruction's branch goes where it falls through to. */
  predicate OffsetOne(extra: Word) {
    Wrap(4 * extra) == 4
  }

  /** The result does not depend on register `l`. */
  predicate Constant(i: Instr, l: Reg) {
    match i.op
    case SUB | SUBU | XOR | SLT => !Reads(i, l) || i.rs == i.rt
    case SLTU => !Reads(i, l) || i.rs == i.rt || i.rt == 0
    case AND | MULT | MULTU | DIV | DIVU => !Reads(i, l) || i.rs == 0 || i.rt == 0
    case ANDI => !Reads(i, l) || Low16(i.extra) == 0
    case SLL => !Reads(i, l) || i.extra >= 32
    case SLLV | SRAV | SRLV => !Reads(i, l) || i.rt == 0
    case SLTI => !Reads(i, l) || i.extra == 0x8000_0000
    case SLTIU => !Reads(i, l) || i.extra == 0
    case BEQ | BNE => !Reads(i, l) || i.rs == i.rt || OffsetOne(i.extra)
    case BGEZ | BLTZ | BGTZ | BLEZ | BGEZAL | BLTZAL => !Reads(i, l) || OffsetOne(i.extra)
    case _ => !Reads(i, l)
  }

  /** The result is what register `l` held, so that writing it back to `l` is no change. */
  predicate Identity(i: Instr, l: Reg) {
    match i.op
    case ADD | ADDU | XOR => (i.rs == l && i.rt == 0) || (i.rs == 0 && i.rt == l)
    case OR => (i.rs == l && i.rt == 0) || (i.rs == 0 && i.rt == l) || (i.rs == l && i.rt == l)
    case AND => i.rs == l && i.rt == l
    case SUB | SUBU => i.rs == l && i.rt == 0
    case ADDI | ADDIU => i.rs == l && i.extra == 0
    case ORI | XORI => i.rs == l && Low16(i.extra) == 0
    case SLL | SRA | SRL => i.rt == l && i.extra == 0
    case SLLV | SRAV | SRLV => i.rt == l && i.rs == 0
    case _ => false
  }

  /** The result is discarded; whether there is an overflow does not depend on register `l`. */
  predicate NoOverflow(i: Instr, l: Reg) {
    match i.op
    case ADD => !Reads(i, l) || i.rs == 0 || i.rt == 0
    case SUB => !Reads(i, l) || i.rs == i.rt || i.rt == 0
    case ADDI => !Reads(i, l) || i.extra == 0
    case _ => true
  }

  /** Arithmetic with one result register. */
  predicate Arithmetic(op: Op) {
    match op
    case ADD | ADDI | ADDIU | ADDU | SUB | SUBU | AND | ANDI | OR | ORI | XOR | XORI | NOR | LUI => true
    case SLL | SLLV | SRA | SRAV | SRL | SRLV | SLT | SLTI | SLTIU | SLTU | MFHI | MFLO => true
    case _ => false
  }

  /** A store that misses its alignment whatever the registers hold. */
  predicate Misplaced(i: Instr) {
    && i.rs == 0
    && match i.op
       case SH => i.extra % 2 != 0
       case SW | SWL | SWR => i.extra % 4 != 0
       case _ => false
  }

  predicate Harmless(i: Instr, l: Reg) {
    if MemoryOp(i.op) then i.rs != l && (!Reads(i, l) || Misplaced(i))
    else if Arithmetic(i.op) && Target(i) == 0 then NoOverflow(i, l)
    else if Target(i) == l then Identity(i, l)
    else Constant(i, l)
  }

  // ---------- arithmetic ----------

  /** Bits of words against all zeros, all ones and themselves. */
  lemma BitFacts(c: Word)
    ensures BitLaws(c)
  {
    Pow2Of32();
    AndSelf(c);
    AndZero(c);
    AndOnes(c, 32);
  }

  lemma ShiftByNothing(x: Word)
    ensures ShiftLeft(x, 0) == x && ShiftRight(x, 0) == x
  {
  }

  lemma ShiftOfConstants(n: nat)
    ensures ShiftLeft(0, n) == 0 && ShiftRight(0, n) == 0 && ShiftRight(W - 1, n) == W - 1
    ensures n > 0 ==> ShiftRight(1, n) == 0
  {
    if n > 0 {
      Pow2IsEven(n);
    }
    hide Pow2;
    var p: int := Pow2(n);
    MinusOneOver(p);
    SmallOver(0, p);
    if n > 0 {
      SmallOver(1, p);
    }
    assert ShiftRight(W - 1, n) == Wrap(-1 / p);
    assert ShiftRight(0, n) == Wrap(0 / p);
    assert ShiftRight(1, n) == Wrap(1 / p);
    assert ShiftLeft(0, n) == Wrap(0 * p);
  }

  lemma MinusOneOver(p: nat)
    requires p >= 1
    ensures -1 / p == -1
  {
  }

  lemma SmallOver(x: nat, p: nat)
    requires x < p
    ensures x / p == 0
  {
  }

  /** Beyond the width nothing is left; within it a one stays visible; and it moves. */
  lemma ShiftOfOne(x: Word, n: nat)
    ensures n >= 32 ==> ShiftLeft(x, n) == 0
    ensures n < 32 ==> ShiftLeft(1, n) != 0
    ensures n > 0 ==> ShiftLeft(1, n) != 1
  {
    Pow2Of32();
    if n >= 32 {
      Pow2Adds(32, n - 32);
      var q := Pow2(n - 32);
      assert x * Pow2(n) == (x * q) * W;
      MultipleOfW(x * q);
      MultipleOfW(q);
    } else {
      Pow2IsEven(32 - n);
      Pow2Adds(n, 32 - n);
      MulMonotone(Pow2(n), 2, Pow2(32 - n));
      assert Wrap(Pow2(n)) == Pow2(n);
      if n > 0 {
        Pow2IsEven(n);
      }
    }
  }

  lemma MultipleOfW(k: nat)
    ensures Wrap(k * W) == 0
  {
    ModulusIsUnique(k * W, W, k, 0);
  }

  // ---------- opcode by opcode ----------

  function Sample(x: Word, v: Word, z1: Word, z2: Word): Contents {
    Contents(x, v, z1, z2, 0, 0, 0)
  }

  /** One register file is enough to show that a restart is seen. */
  lemma Shows(i: Instr, l: Reg, c: Contents)
    requires Possible(i, c) && !QuietAt(i, l, c)
    ensures !Quiet(i, l)
  {
  }

  lemma ExactAddu(i: Instr, l: Reg)
    requires i.op == ADDU && l != 0
    ensures Quiet(i, l) <==> Harmless(i, l)
  {
    hide AndBits, OrBits, XorBits, Low16, ShiftLeft, ShiftRight, Quotient, High, Branch, JumpTarget, ProductOf, And,
      Pow2, Plus4;
    if !Harmless(i, l) {
      var z := if i.rd == l && Reads(i, l) then 1 else 0;
      Shows(i, l, Sample(0, 1, z, z));
    }
  }

  lemma ExactSubu(i: Instr, l: Reg)
    requires i.op == SUBU && l != 0
    ensures Quiet(i, l) <==> Harmless(i, l)
  {
    hide AndBits, OrBits, XorBits, Low16, ShiftLeft, ShiftRight, Quotient, High, Branch, JumpTarget, ProductOf, And,
      Pow2, Plus4;
    if !Harmless(i, l) {
      var z := if i.rd == l && i.rs == l then 1 else 0;
      Shows(i, l, Sample(0, 1, z, z));
    }
  }

  lemma ExactAddiu(i: Instr, l: Reg)
    requires i.op == ADDIU && l != 0
    ensures Quiet(i, l) <==> Harmless(i, l)
  {
    hide AndBits, OrBits, XorBits, Low16, ShiftLeft, ShiftRight, Quotient, High, Branch, JumpTarget, ProductOf, And,
      Pow2, Plus4;
    if !Harmless(i, l) {
      Shows(i, l, Sample(0, if i.rs != l && i.extra == 1 then 2 else 1, 0, 0));
    }
  }

  lemma SignedBack(x: Word)
    ensures Wrap(Signed(x)) == Wrap(Signed(x) + 0) == Wrap(Signed(x) - 0) == x && Signed(0) == 0
      && Signed(x) - Signed(x) == 0
    ensures Wrap(0) == 0
  {
  }

  lemma QuietAdd(i: Instr, l: Reg)
    requires i.op == ADD && l != 0 && Harmless(i, l)
    ensures Quiet(i, l)
  {
    hide AndBits, OrBits, XorBits, Low16, ShiftLeft, ShiftRight, Quotient, High, Branch, JumpTarget, ProductOf, And,
      Pow2, Plus4, Wrap, Signed;
    forall c | Possible(i, c)
      ensures QuietAt(i, l, c)
    {
      SignedBack(0);
      SignedBack(c.x);
      SignedBack(c.v);
    }
  }

  lemma ExactAdd(i: Instr, l: Reg)
    requires i.op == ADD && l != 0
    ensures Quiet(i, l) <==> Harmless(i, l)
  {
    hide Quiet, Compute;
    if Harmless(i, l) {
      QuietAdd(i, l);
    } else {
      ShowsAdd(i, l);
    }
  }

  lemma ShowsAdd(i: Instr, l: Reg)
    requires i.op == ADD && l != 0 && !Harmless(i, l)
    ensures !Quiet(i, l)
  {
    hide AndBits, OrBits, XorBits, Low16, ShiftLeft, ShiftRight, Quotient, High, Branch, JumpTarget, ProductOf, And,
      Pow2, Plus4;
    if i.rd == 0 {
      Shows(i, l, Sample(0, 0x7fff_ffff, 1, 1));
    } else {
      var z := if i.rd == l && Reads(i, l) then 1 else 0;
      Shows(i, l, Sample(0, 1, z, z));
    }
  }

  lemma QuietSub(i: Instr, l: Reg)
    requires i.op == SUB && l != 0 && Harmless(i, l)
    ensures Quiet(i, l)
  {
    hide AndBits, OrBits, XorBits, Low16, ShiftLeft, ShiftRight, Quotient, High, Branch, JumpTarget, ProductOf, And,
      Pow2, Plus4, Wrap, Signed;
    forall c | Possible(i, c)
      ensures QuietAt(i, l, c)
    {
      SignedBack(0);
      SignedBack(c.x);
      SignedBack(c.v);
    }
  }

  lemma ExactSub(i: Instr, l: Reg)
    requires i.op == SUB && l != 0
    ensures Quiet(i, l) <==> Harmless(i, l)
  {
    hide Quiet, Compute;
    if Harmless(i, l) {
      QuietSub(i, l);
    } else {
      ShowsSub(i, l);
    }
  }

  lemma ShowsSub(i: Instr, l: Reg)
    requires i.op == SUB && l != 0 && !Harmless(i, l)
    ensures !Quiet(i, l)
  {
    hide AndBits, OrBits, XorBits, Low16, ShiftLeft, ShiftRight, Quotient, High, Branch, JumpTarget, ProductOf, And,
      Pow2, Plus4;
    if i.rd == 0 {
      var z := if i.rs == l then 1 else 0;
      Shows(i, l, Sample(0, 0x8000_0000, z, z));
    } else {
      var z := if i.rd == l && i.rs == l then 1 else 0;
      Shows(i, l, Sample(0, 1, z, z));
    }
  }

  lemma QuietAddi(i: Instr, l: Reg)
    requires i.op == ADDI && l != 0 && Harmless(i, l)
    ensures Quiet(i, l)
  {
    hide AndBits, OrBits, XorBits, Low16, ShiftLeft, ShiftRight, Quotient, High, Branch, JumpTarget, ProductOf, And,
      Pow2, Plus4, Wrap, Signed;
    forall c | Possible(i, c)
      ensures QuietAt(i, l, c)
    {
      SignedBack(0);
      SignedBack(c.x);
      SignedBack(c.v);
    }
  }

  lemma ExactAddi(i: Instr, l: Reg)
    requires i.op == ADDI && l != 0
    ensures Quiet(i, l) <==> Harmless(i, l)
  {
    hide Quiet, Compute;
    if Harmless(i, l) {
      QuietAddi(i, l);
    } else {
      ShowsAddi(i, l);
    }
  }

  lemma Checked(sum: int)
    requires -W <= sum < W
    ensures sum == Signed(Wrap(sum)) <==> -0x8000_0000 <= sum < 0x8000_0000
  {
  }

  lemma WrapDiffers(a: int, b: int)
    requires -W < a - b < W && a != b
    ensures Wrap(a) != Wrap(b)
  {
  }

  lemma AddiNumbers(extra: Word)
    ensures
      var e: int := Signed(extra);
      var far: Word := if e >= 0 then 0x7fff_ffff else 0x8000_0000;
      && Signed(0) == 0 && Signed(1) == 1 && Signed(2) == 2 && Wrap(e) == extra && Signed(Wrap(e)) == e
      && (e == 0 <==> extra == 0) && Wrap(1 + e) != extra && (extra != 0 ==> Wrap(1 + e) != 1)
      && (extra != 0 ==> Signed(far) + e != Signed(Wrap(Signed(far) + e)))
  {
    var e: int := Signed(extra);
    var far: Word := if e >= 0 then 0x7fff_ffff else 0x8000_0000;
    Checked(e);
    Checked(Signed(far) + e);
    WrapDiffers(e, e + 1);
    SignedBack(extra);
  }

  lemma ShowsAddi(i: Instr, l: Reg)
    requires i.op == ADDI && l != 0 && !Harmless(i, l)
    ensures !Quiet(i, l)
  {
    hide AndBits, OrBits, XorBits, Low16, ShiftLeft, ShiftRight, Quotient, High, Branch, JumpTarget, ProductOf, And,
      Pow2, Plus4, Wrap, Signed;
    AddiNumbers(i.extra);
    var e: int := Signed(i.extra);
    var far := if e >= 0 then 0x7fff_ffff else 0x8000_0000;
    var v := if i.rt == 0 then far else if i.rs != l && i.extra == 1 then 2 else 1;
    Shows(i, l, Sample(0, v, 0, 0));
  }

  predicate BitLaws(c: Word) {
    && AndBits(c, 0) == AndBits(0, c) == 0 && AndBits(c, c) == c && AndBits(W - 1, c) == c
    && OrBits(c, 0) == OrBits(0, c) == OrBits(c, c) == c && OrBits(W - 1, c) == OrBits(c, W - 1) == W - 1
    && XorBits(c, c) == 0 && XorBits(c, 0) == XorBits(0, c) == c && XorBits(W - 1, c) != c
  }

  lemma ExactAnd(i: Instr, l: Reg)
    requires i.op == AND && l != 0
    ensures Quiet(i, l) <==> Harmless(i, l)
  {
    hide AndBits, OrBits, XorBits, ShiftLeft, ShiftRight, Quotient, High, Branch, JumpTarget, ProductOf, And, Pow2,
      Plus4;
    if Harmless(i, l) {
      forall c | Possible(i, c)
        ensures QuietAt(i, l, c)
      {
        BitFacts(c.x);
        BitFacts(c.v);
      }
    } else {
      BitFacts(0);
      BitFacts(1);
      var z := if i.rd == l then 0 else 1;
      Shows(i, l, Sample(0, 1, z, z));
    }
  }

  lemma ExactAndi(i: Instr, l: Reg)
    requires i.op == ANDI && l != 0
    ensures Quiet(i, l) <==> Harmless(i, l)
  {
    hide AndBits, OrBits, XorBits, ShiftLeft, ShiftRight, Quotient, High, Branch, JumpTarget, ProductOf, And, Pow2,
      Plus4;
    if Harmless(i, l) {
      forall c | Possible(i, c)
        ensures QuietAt(i, l, c)
      {
        BitFacts(c.x);
        BitFacts(c.v);
      }
    } else {
      BitFacts(Low16(i.extra));
      BitFacts(0);
      Shows(i, l, Sample(0, W - 1, 0, 0));
    }
  }

  lemma ExactOr(i: Instr, l: Reg)
    requires i.op == OR && l != 0
    ensures Quiet(i, l) <==> Harmless(i, l)
  {
    hide AndBits, OrBits, XorBits, ShiftLeft, ShiftRight, Quotient, High, Branch, JumpTarget, ProductOf, And, Pow2,
      Plus4;
    if Harmless(i, l) {
      forall c | Possible(i, c)
        ensures QuietAt(i, l, c)
      {
        BitFacts(c.x);
        BitFacts(c.v);
      }
    } else {
      BitFacts(0);
      BitFacts(1);
      var z := if i.rd == l && Reads(i, l) then W - 1 else 0;
      Shows(i, l, Sample(0, 1, z, z));
    }
  }

  lemma ExactOri(i: Instr, l: Reg)
    requires i.op == ORI && l != 0
    ensures Quiet(i, l) <==> Harmless(i, l)
  {
    hide AndBits, OrBits, XorBits, ShiftLeft, ShiftRight, Quotient, High, Branch, JumpTarget, ProductOf, And, Pow2,
      Plus4;
    if Harmless(i, l) {
      forall c | Possible(i, c)
        ensures QuietAt(i, l, c)
      {
        BitFacts(c.x);
        BitFacts(c.v);
      }
    } else {
      BitFacts(Low16(i.extra));
      BitFacts(0);
      var v := if i.rt != l then W - 1 else if i.rs == l then 0 else if Low16(i.extra) == 1 then 2 else 1;
      Shows(i, l, Sample(0, v, 0, 0));
    }
  }

  lemma ExactXor(i: Instr, l: Reg)
    requires i.op == XOR && l != 0
    ensures Quiet(i, l) <==> Harmless(i, l)
  {
    hide AndBits, OrBits, XorBits, ShiftLeft, ShiftRight, Quotient, High, Branch, JumpTarget, ProductOf, And, Pow2,
      Plus4;
    if Harmless(i, l) {
      forall c | Possible(i, c)
        ensures QuietAt(i, l, c)
      {
        BitFacts(c.x);
        BitFacts(c.v);
      }
    } else {
      BitFacts(0);
      BitFacts(1);
      var z := if i.rd == l && Reads(i, l) then 1 else 0;
      Shows(i, l, Sample(0, 1, z, z));
    }
  }

  lemma ExactXori(i: Instr, l: Reg)
    requires i.op == XORI && l != 0
    ensures Quiet(i, l) <==> Harmless(i, l)
  {
    hide AndBits, OrBits, XorBits, ShiftLeft, ShiftRight, Quotient, High, Branch, JumpTarget, ProductOf, And, Pow2,
      Plus4;
    if Harmless(i, l) {
      forall c | Possible(i, c)
        ensures QuietAt(i, l, c)
      {
        BitFacts(c.x);
        BitFacts(c.v);
      }
    } else {
      BitFacts(Low16(i.extra));
      BitFacts(0);
      var v := if i.rt != l then W - 1 else if i.rs == l then 0 else if Low16(i.extra) == 1 then 2 else 1;
      Shows(i, l, Sample(0, v, 0, 0));
    }
  }

  lemma ExactNor(i: Instr, l: Reg)
    requires i.op == NOR && l != 0
    ensures Quiet(i, l) <==> Harmless(i, l)
  {
    hide AndBits, OrBits, XorBits, ShiftLeft, ShiftRight, Quotient, High, Branch, JumpTarget, ProductOf, And, Pow2,
      Plus4;
    if Harmless(i, l) {
      forall c | Possible(i, c)
        ensures QuietAt(i, l, c)
      {
        BitFacts(c.x);
        BitFacts(c.v);
      }
    } else {
      BitFacts(0);
      BitFacts(1);
      Shows(i, l, Sample(0, 1, 0, 0));
    }
  }

  lemma ExactSlt(i: Instr, l: Reg)
    requires i.op == SLT && l != 0
    ensures Quiet(i, l) <==> Harmless(i, l)
  {
    hide AndBits, OrBits, XorBits, ShiftLeft, Low16, ShiftRight, Quotient, High, Branch, JumpTarget, ProductOf, And,
      Pow2, Plus4;
    if !Harmless(i, l) {
      var v := if i.rd == l then 2 else if i.rs == l then W - 1 else 1;
      Shows(i, l, Sample(0, v, 0, 0));
    }
  }

  lemma ExactSltu(i: Instr, l: Reg)
    requires i.op == SLTU && l != 0
    ensures Quiet(i, l) <==> Harmless(i, l)
  {
    hide AndBits, OrBits, XorBits, ShiftLeft, Low16, ShiftRight, Quotient, High, Branch, JumpTarget, ProductOf, And,
      Pow2, Plus4;
    if !Harmless(i, l) {
      var z := if i.rs == l then 1 else 0;
      Shows(i, l, Sample(0, if i.rd == l then 2 else 1, z, z));
    }
  }

  lemma ExactSlti(i: Instr, l: Reg)
    requires i.op == SLTI && l != 0
    ensures Quiet(i, l) <==> Harmless(i, l)
  {
    hide AndBits, OrBits, XorBits, ShiftLeft, Low16, ShiftRight, Quotient, High, Branch, JumpTarget, ProductOf, And,
      Pow2, Plus4;
    if !Harmless(i, l) {
      Shows(i, l, if i.rt == l then Sample(0, 2, 0, 0) else Sample(0x8000_0000, 0x7fff_ffff, 0, 0));
    }
  }

  lemma ExactSltiu(i: Instr, l: Reg)
    requires i.op == SLTIU && l != 0
    ensures Quiet(i, l) <==> Harmless(i, l)
  {
    hide AndBits, OrBits, XorBits, ShiftLeft, Low16, ShiftRight, Quotient, High, Branch, JumpTarget, ProductOf, And,
      Pow2, Plus4;
    if !Harmless(i, l) {
      Shows(i, l, Sample(0, if i.rt == l then 2 else W - 1, 0, 0));
    }
  }

  lemma ExactSll(i: Instr, l: Reg)
    requires i.op == SLL && l != 0
    ensures Quiet(i, l) <==> Harmless(i, l)
  {
    hide AndBits, OrBits, XorBits, Low16, ShiftLeft, ShiftRight, Quotient, High, Branch, JumpTarget, ProductOf, And,
      Pow2, Plus4;
    if Harmless(i, l) {
      forall c | Possible(i, c)
        ensures QuietAt(i, l, c)
      {
        ShiftByNothing(c.v);
        ShiftOfOne(c.x, i.extra);
        ShiftOfOne(c.v, i.extra);
      }
    } else {
      ShiftOfConstants(i.extra);
      ShiftOfOne(0, i.extra);
      Shows(i, l, Sample(0, 1, 0, 0));
    }
  }

  lemma ExactSllv(i: Instr, l: Reg)
    requires i.op == SLLV && l != 0
    ensures Quiet(i, l) <==> Harmless(i, l)
  {
    hide AndBits, OrBits, XorBits, Low16, ShiftLeft, ShiftRight, Quotient, High, Branch, JumpTarget, ProductOf, And,
      Pow2, Plus4, Wrap, Signed;
    if Harmless(i, l) {
      forall c | Possible(i, c)
        ensures QuietAt(i, l, c)
      {
        ShiftByNothing(c.v);
        ShiftOfConstants(c.x % 32);
        ShiftOfConstants(c.v % 32);
        ShiftOfConstants(c.z1 % 32);
      }
    } else {
      ShowsSllv(i, l);
    }
  }

  lemma ShowsSllv(i: Instr, l: Reg)
    requires i.op == SLLV && l != 0 && !Harmless(i, l)
    ensures !Quiet(i, l)
  {
    hide AndBits, OrBits, XorBits, Low16, ShiftLeft, ShiftRight, Quotient, High, Branch, JumpTarget, ProductOf, And,
      Pow2, Plus4, Wrap, Signed;
    ShiftByNothing(1);
    ShiftOfConstants(0);
    ShiftOfConstants(1);
    ShiftOfOne(0, 1);
    var z1 := if i.rd == l && i.rs != i.rt then 1 else 0;
    var z2 := if i.rd != l && i.rs == l && i.rt != l then 1 else 0;
    Shows(i, l, Sample(0, 1, z1, z2));
  }

  lemma ExactSraSrl(i: Instr, l: Reg)
    requires (i.op == SRA || i.op == SRL) && l != 0
    ensures Quiet(i, l) <==> Harmless(i, l)
  {
    hide AndBits, OrBits, XorBits, Low16, ShiftLeft, ShiftRight, Quotient, High, Branch, JumpTarget, ProductOf, And,
      Pow2, Plus4;
    if Harmless(i, l) {
      forall c | Possible(i, c)
        ensures QuietAt(i, l, c)
      {
        ShiftByNothing(c.v);
      }
    } else {
      ShiftOfConstants(i.extra);
      Shows(i, l, Sample(0, if i.rd == l then 1 else W - 1, 0, 0));
    }
  }

  lemma ExactSravSrlv(i: Instr, l: Reg)
    requires (i.op == SRAV || i.op == SRLV) && l != 0
    ensures Quiet(i, l) <==> Harmless(i, l)
  {
    hide AndBits, OrBits, XorBits, Low16, ShiftLeft, ShiftRight, Quotient, High, Branch, JumpTarget, ProductOf, And,
      Pow2, Plus4;
    if Harmless(i, l) {
      forall c | Possible(i, c)
        ensures QuietAt(i, l, c)
      {
        ShiftByNothing(c.v);
        ShiftOfConstants(c.x % 32);
        ShiftOfConstants(c.v % 32);
        ShiftOfConstants(c.z1 % 32);
      }
    } else {
      ShowsSravSrlv(i, l);
    }
  }

  lemma ShowsSravSrlv(i: Instr, l: Reg)
    requires (i.op == SRAV || i.op == SRLV) && l != 0 && !Harmless(i, l)
    ensures !Quiet(i, l)
  {
    hide AndBits, OrBits, XorBits, Low16, ShiftLeft, ShiftRight, Quotient, High, Branch, JumpTarget, ProductOf, And,
      Pow2, Plus4, Wrap, Signed;
    ShiftByNothing(1);
    ShiftByNothing(32);
    ShiftOfConstants(0);
    ShiftOfConstants(1);
    if i.rd == l {
      var z1 := if i.rs != i.rt then 1 else 0;
      Shows(i, l, Sample(0, 1, z1, 0));
    } else if i.rs == l && i.rt != l {
      Shows(i, l, Sample(0, 1, 0, 1));
    } else {
      Shows(i, l, Sample(0, 32, 0, 0));
    }
  }

  lemma ExactLui(i: Instr, l: Reg)
    requires i.op == LUI && l != 0
    ensures Quiet(i, l) <==> Harmless(i, l)
  {
    hide AndBits, OrBits, XorBits, Low16, ShiftLeft, ShiftRight, Quotient, High, Branch, JumpTarget, ProductOf, And,
      Pow2, Plus4;
    if !Harmless(i, l) {
      Shows(i, l, Sample(0, if ShiftLeft(i.extra, 16) == 1 then 2 else 1, 0, 0));
    }
  }

  lemma ExactMoves(i: Instr, l: Reg)
    requires (i.op == MFHI || i.op == MFLO || i.op == MTHI || i.op == MTLO) && l != 0
    ensures Quiet(i, l) <==> Harmless(i, l)
  {
    hide AndBits, OrBits, XorBits, Low16, ShiftLeft, ShiftRight, Quotient, High, Branch, JumpTarget, ProductOf, And,
      Pow2, Plus4;
    if !Harmless(i, l) {
      Shows(i, l, Sample(0, 1, 0, 0));
    }
  }

  lemma ExactMult(i: Instr, l: Reg)
    requires (i.op == MULT || i.op == MULTU) && l != 0
    ensures Quiet(i, l) <==> Harmless(i, l)
  {
    if Harmless(i, l) {
      hide Compute;
      forall c | Possible(i, c)
        ensures QuietAt(i, l, c)
      {
        MultipliesZero(i, c.x, c);
        MultipliesZero(i, c.v, c);
        SameActionIsQuiet(i, l, c);
      }
    } else {
      hide AndBits, OrBits, XorBits, Low16, ShiftLeft, ShiftRight, Quotient, High, Branch, JumpTarget, And, Pow2,
        Plus4, Product, ProductOf;
      ProductOfZero(0);
      ProductOfZero(1);
      ProductOfOne();
      Shows(i, l, Sample(0, 1, 1, 1));
    }
  }

  lemma MultipliesZero(i: Instr, x: Word, c: Contents)
    requires i.op == MULT || i.op == MULTU
    ensures Compute(i, 0, x, c.hi, c.lo, c.next) == Compute(i, x, 0, c.hi, c.lo, c.next)
      == Plain(Both(0, 0), Plus4(c.next))
  {
    hide AndBits, OrBits, XorBits, Low16, ShiftLeft, ShiftRight, Quotient, High, Branch, JumpTarget, And, Pow2, Plus4,
      Product, ProductOf;
    ProductOfZero(Signed(x));
  }

  lemma ExactDiv(i: Instr, l: Reg)
    requires (i.op == DIV || i.op == DIVU) && l != 0
    ensures Quiet(i, l) <==> Harmless(i, l)
  {
    if Harmless(i, l) {
      hide Compute;
      forall c | Possible(i, c)
        ensures QuietAt(i, l, c)
      {
        DividesZero(i, c.x, c);
        DividesZero(i, c.v, c);
        DividesByZero(i, c.x, c);
        DividesByZero(i, c.v, c);
        SameActionIsQuiet(i, l, c);
      }
    } else {
      ShowsDiv(i, l);
    }
  }

  lemma ShowsDiv(i: Instr, l: Reg)
    requires (i.op == DIV || i.op == DIVU) && l != 0 && !Harmless(i, l)
    ensures !Quiet(i, l)
  {
    var c := Sample(0, 1, 1, 1);
    DividesZero(i, 0, c);
    DividesZero(i, 1, c);
    OneByOne(i, c);
    hide Compute;
    Shows(i, l, c);
  }

  lemma OneByOne(i: Instr, c: Contents)
    requires i.op == DIV || i.op == DIVU
    ensures Compute(i, 1, 1, c.hi, c.lo, c.next) == Plain(Both(0, 1), Plus4(c.next))
    ensures Compute(i, 1, 0, c.hi, c.lo, c.next) == Plain(Both(0, 0), Plus4(c.next))
  {
    hide AndBits, OrBits, XorBits, Low16, ShiftLeft, ShiftRight, High, Branch, JumpTarget, ProductOf, And, Pow2, Plus4;
    assert Quotient(1, 1) == 1;
  }

  lemma SameActionIsQuiet(i: Instr, l: Reg, c: Contents)
    requires !MemoryOp(i.op) && l != 0 && Target(i) != l && Before(i, l, c) == Afterwards(i, l, c)
    ensures QuietAt(i, l, c)
  {
    RegisterOnly(i, Operand(i.rs, l, c.x, c.z1), Operand(i.rt, l, c.x, c.z2), c.hi, c.lo, c.next);
    hide Compute;
  }

  lemma DividesByZero(i: Instr, a: Word, c: Contents)
    requires i.op == DIV || i.op == DIVU
    ensures Compute(i, a, 0, c.hi, c.lo, c.next) == Plain(Both(0, 0), Plus4(c.next))
  {
    hide AndBits, OrBits, XorBits, Low16, ShiftLeft, ShiftRight, High, Branch, JumpTarget, ProductOf, And, Pow2, Plus4;
  }

  lemma ProductOfZero(x: Int)
    ensures forall signedArith :: ProductOf(0, x, signedArith) == ProductOf(x, 0, signedArith) == Both(0, 0)
  {
  }

  lemma ProductOfOne()
    ensures forall signedArith :: ProductOf(1, 1, signedArith) == Both(0, 1)
  {
  }

  lemma DividesZero(i: Instr, b: Word, c: Contents)
    requires i.op == DIV || i.op == DIVU
    ensures Compute(i, 0, b, c.hi, c.lo, c.next) == Plain(Both(0, 0), Plus4(c.next))
  {
    hide AndBits, OrBits, XorBits, Low16, ShiftLeft, ShiftRight, High, Branch, JumpTarget, ProductOf, And, Pow2, Plus4;
    if b != 0 {
      assert Quotient(0, Signed(b)) == 0;
      assert Signed(b) * 0 == 0;
    }
  }

  // ---------- branches and jumps ----------

  /** A branch by one instruction goes where not branching goes; any other one does not. */
  lemma BranchFacts(next: Word, extra: Word)
    ensures OffsetOne(extra) ==> Branch(next, extra, true) == Branch(next, extra, false)
    ensures !OffsetOne(extra) ==> Branch(0, extra, true) != Branch(0, extra, false)
  {
    if OffsetOne(extra) {
      var k := 4 * extra / W;
      assert 4 * extra == W * k + 4;
      WrapPlus(next + 4, k);
    }
  }

  lemma WrapPlus(x: nat, k: nat)
    ensures Wrap(x + W * k) == Wrap(x)
  {
    assert x + W * k == W * (x / W + k) + x % W;
    ModulusIsUnique(x + W * k, W, x / W + k, x % W);
  }

  lemma ExactBranch(i: Instr, l: Reg)
    requires (i.op == BEQ || i.op == BNE || i.op == BGEZ || i.op == BLTZ || i.op == BGTZ || i.op == BLEZ) && l != 0
    ensures Quiet(i, l) <==> Harmless(i, l)
  {
    hide AndBits, OrBits, XorBits, Low16, ShiftLeft, ShiftRight, Quotient, High, Branch, JumpTarget, ProductOf, And,
      Pow2, Plus4, Wrap;
    if Harmless(i, l) {
      forall c | Possible(i, c)
        ensures QuietAt(i, l, c)
      {
        BranchFacts(c.next, i.extra);
      }
    } else {
      BranchFacts(0, i.extra);
      Shows(i, l, Sample(0, if i.op == BGEZ || i.op == BLTZ then W - 1 else 1, 0, 0));
    }
  }

  lemma ExactBranchAndLink(i: Instr, l: Reg)
    requires (i.op == BGEZAL || i.op == BLTZAL) && l != 0
    ensures Quiet(i, l) <==> Harmless(i, l)
  {
    assert Plus4(0) == 4;
    hide AndBits, OrBits, XorBits, Low16, ShiftLeft, ShiftRight, Quotient, High, Branch, JumpTarget, ProductOf, And,
      Pow2, Plus4, Wrap;
    if Harmless(i, l) {
      forall c | Possible(i, c)
        ensures QuietAt(i, l, c)
      {
        BranchFacts(c.next, i.extra);
      }
    } else {
      BranchFacts(0, i.extra);
      Shows(i, l, Sample(0, W - 1, 0, 0));
    }
  }

  lemma ExactJump(i: Instr, l: Reg)
    requires (i.op == J || i.op == JAL || i.op == JR || i.op == JALR) && l != 0
    ensures Quiet(i, l) <==> Harmless(i, l)
  {
    assert Plus4(0) == 4;
    hide AndBits, OrBits, XorBits, Low16, ShiftLeft, ShiftRight, Quotient, High, Branch, JumpTarget, ProductOf, And,
      Pow2, Plus4, Wrap;
    if !Harmless(i, l) {
      Shows(i, l, Sample(0, 1, 0, 0));
    }
  }

  lemma ExactTrap(i: Instr, l: Reg)
    requires (i.op == SYSCALL || i.op == RES || i.op == UNIMP) && l != 0
    ensures Quiet(i, l) <==> Harmless(i, l)
  {
  }

  // ---------- loads and stores ----------

  /** Registers with `x` in register `l`, `v` on its way there, and `z` in register `rs`. */
  function Pending(i: Instr, l: Reg, x: Word, v: Word, z: Word): (r: Registers)
    requires l != 0
    ensures WellFormed(r)
  {
    Holding(i, l, Sample(x, v, z, if i.rs == i.rt then z else 0))
  }

  lemma PendingHolds(i: Instr, l: Reg, x: Word, v: Word, z: Word)
    requires l != 0
    ensures
      var r := Pending(i, l, x, v, z);
      && r[LOAD] == l && r[PC] == 0
      && Issue(r, i) == Compute(i, Operand(i.rs, l, x, z), Operand(i.rt, l, x, if i.rs == i.rt then z else 0), 0, 0, 0)
      && Issue(Settle(r), i)
        == Compute(i, Operand(i.rs, l, v, z), Operand(i.rt, l, v, if i.rs == i.rt then z else 0), 0, 0, 0)
      && r[i.rt] == Operand(i.rt, l, x, if i.rs == i.rt then z else 0)
      && Settle(r)[i.rt] == Operand(i.rt, l, v, if i.rs == i.rt then z else 0)
  {
    hide Compute;
    HoldingHolds(i, l, Sample(x, v, z, if i.rs == i.rt then z else 0));
  }

  lemma FourIsEven(a: nat)
    requires a % 4 == 0
    ensures a % 2 == 0
  {
    assert a == 4 * (a / 4);
  }

  /** Where a memory instruction goes if `rs` holds `a`: to an aligned address. */
  lemma GoesTo(i: Instr, a: Word, b: Word, addr: Word)
    requires MemoryOp(i.op) && addr == Wrap(a + i.extra) && addr % 4 == 0
    ensures
      var c := Compute(i, a, b, 0, 0, 0);
      && (c.Loads? || c.Stores? || c.Merges?) && c.addr == addr
      && (c.Merges? || F.AccessSize(c.size)) && (c.Stores? ==> c.value == b)
      && (c.Stores? <==> i.op == SB || i.op == SH || i.op == SW) && (c.Merges? <==> i.op == SWL || i.op == SWR)
  {
    FourIsEven(addr);
    hide AndBits, OrBits, XorBits, Low16, ShiftLeft, ShiftRight, Quotient, High, Branch, JumpTarget, ProductOf, And,
      Pow2, Plus4, Signed, Wrap;
  }

  lemma BackToZero(extra: Word, k: Word)
    requires k < 256
    ensures Wrap(Wrap(k - extra) + extra) == k
  {
  }

  /** An address that comes from the register of the load: out of bounds before, inside after. */
  lemma AddressShows(i: Instr, l: Reg)
    requires MemoryOp(i.op) && l != 0 && i.rs == l
    ensures !Transparent(i, l)
  {
    hide Compute, Settle, Pending, OnePage, Wrap, Settled, MemoryOp, Exec, Unnoticed, Issue, Touches;
    var x, v := Wrap(PAGE_SIZE - i.extra), Wrap(0 - i.extra);
    var r, mem := Pending(i, l, x, v, 0), OnePage(0);
    AddressMoves(i, l);
    BeyondThePage(i, r, mem);
    OnThePage(i, Settle(r), mem);
    OneFaults(i, l, r, mem);
  }

  lemma AddressMoves(i: Instr, l: Reg)
    requires MemoryOp(i.op) && l != 0 && i.rs == l
    ensures
      var r := Pending(i, l, Wrap(PAGE_SIZE - i.extra), Wrap(0 - i.extra), 0);
      && Behind(r, OnePage(0), l) && |OnePage(0)| == PAGE_SIZE
      && Touches(Issue(r, i), PAGE_SIZE) && Touches(Issue(Settle(r), i), 0)
  {
    hide Compute, Settle, Pending, OnePage, Wrap, Settled, MemoryOp, Exec, Issue;
    var x, v := Wrap(PAGE_SIZE - i.extra), Wrap(0 - i.extra);
    BackToZero(i.extra, PAGE_SIZE);
    BackToZero(i.extra, 0);
    var r, mem := Pending(i, l, x, v, 0), OnePage(0);
    PendingHolds(i, l, x, v, 0);
    GoesTo(i, x, r[i.rt], PAGE_SIZE);
    GoesTo(i, v, Settle(r)[i.rt], 0);
    PageZeroIsThere(mem, r);
  }

  lemma OneFaults(i: Instr, l: Reg, r: Registers, mem: Memory)
    requires Behind(r, mem, l) && Exec(r, mem, Pages(mem), i).Faulted? && !Exec(Settle(r), mem, Pages(mem), i).Faulted?
    ensures !Transparent(i, l)
  {
    hide Exec, Settle;
    assert !TransparentAt(i, r, mem);
  }

  predicate Touches(a: Action, addr: Word) {
    (a.Loads? || a.Stores? || a.Merges?) && a.addr == addr
  }

  lemma BeyondThePage(i: Instr, r: Registers, mem: Memory)
    requires WellFormed(r) && |mem| == PAGE_SIZE && Touches(Issue(r, i), PAGE_SIZE)
    ensures Exec(r, mem, Pages(mem), i).Faulted?
  {
    hide Compute, Loaded, Merged, Finish, F.Load, F.Store, Raised;
  }

  lemma OnThePage(i: Instr, r: Registers, mem: Memory)
    requires WellFormed(r) && |mem| == PAGE_SIZE && Touches(Issue(r, i), 0)
    ensures Exec(r, mem, Pages(mem), i).Done?
  {
    assert IsPage(mem, 0) && 0 in Pages(mem);
    hide Compute, Loaded, Merged, Finish, F.Load, F.Store, Raised;
  }

  /** All zeros, up to and including the page of `addr`. */
  function ZerosUpTo(addr: Word): (mem: Memory)
    ensures MemoryOk(mem) && addr / PAGE_SIZE < |mem| / PAGE_SIZE && |mem| >= PAGE_SIZE
    ensures forall a :: 0 <= a < |mem| ==> mem[a] == 0
  {
    seq<F.byte>((addr / PAGE_SIZE + 1) * PAGE_SIZE, _ => 0)
  }

  /** Storing 0 and storing 1, or either moved to the top byte of a zero word, are different. */
  lemma StoresDiffer(op: Op, mem: Memory, addr: nat, size: nat)
    requires addr + size <= |mem| && F.AccessSize(size) && forall a :: 0 <= a < |mem| ==> mem[a] == 0
    ensures F.Store(mem, addr, size, 0) != F.Store(mem, addr, size, 1)
    ensures size == 4 ==>
      var value := F.Load(mem, addr, 4);
      F.Store(mem, addr, 4, Merged(op, value, 0)) != F.Store(mem, addr, 4, Merged(op, value, 1))
  {
    BytesDiffer(mem, addr, size, 0, 1, 0);
    if size == 4 {
      var value := F.Load(mem, addr, 4);
      var m0, m1 := Merged(op, value, 0), Merged(op, value, 1);
      if op == SWR {
        assert m1 == m0 + 0x100_0000;
        TopDigit(m0);
        BytesDiffer(mem, addr, 4, m0, m1, 3);
      } else {
        BytesDiffer(mem, addr, 4, m0, m1, 0);
      }
    }
  }

  lemma BytesDiffer(mem: Memory, addr: nat, size: nat, v: int, v': int, k: nat)
    requires addr + size <= |mem| && k < size && F.Digit(v, k) != F.Digit(v', k)
    ensures F.Store(mem, addr, size, v) != F.Store(mem, addr, size, v')
  {
    var b, b' := F.Bytes(v, size), F.Bytes(v', size);
    var m, m' := F.Store(mem, addr, size, v), F.Store(mem, addr, size, v');
    assert m[addr..addr + size] == b && m'[addr..addr + size] == b';
    assert b[k] != b'[k];
  }

  lemma TopDigit(m: int)
    requires 0 <= m < 0x100_0000
    ensures F.Digit(m, 3) == 0 && F.Digit(m + 0x100_0000, 3) == 1
  {
    assert F.Digit(m, 3) == F.Digit(m / 256, 2) == F.Digit(m / 256 / 256, 1) == F.Digit(m / 256 / 256 / 256, 0);
    var n := m + 0x100_0000;
    assert F.Digit(n, 3) == F.Digit(n / 256, 2) == F.Digit(n / 256 / 256, 1) == F.Digit(n / 256 / 256 / 256, 0);
  }

  /** A store of the register of the load, to an address that does not come from it. */
  lemma StoredValueShows(i: Instr, l: Reg)
    requires MemoryOp(i.op) && l != 0 && i.rs != l && Reads(i, l) && !Misplaced(i)
    ensures !Transparent(i, l)
  {
    var z := if i.rs == 0 then 0 else Wrap(0 - i.extra);
    BackToZero(i.extra, 0);
    var addr := Wrap(z + i.extra);
    StoreGoesTo(i, z, addr);
    var r, mem := Pending(i, l, 0, 1, z), ZerosUpTo(addr);
    PendingHolds(i, l, 0, 1, z);
    PageZeroIsThere(mem, r);
    assert IsPage(mem, addr / PAGE_SIZE);
    hide Compute, Settle, Pending, ZerosUpTo;
    StoreOutcomes(i, r, Settle(r), mem, addr);
    assert Behind(r, mem, l);
    assert !TransparentAt(i, r, mem);
  }

  /** Two stores to the same place inside a memory of zeros, one of 0 and one of 1. */
  lemma StoreOutcomes(i: Instr, r: Registers, r': Registers, mem: Memory, addr: Word)
    requires WellFormed(r) && WellFormed(r') && MemoryOk(mem) && forall a :: 0 <= a < |mem| ==> mem[a] == 0
    requires IsPage(mem, addr / PAGE_SIZE) && r[i.rt] == 0 && r'[i.rt] == 1
    requires
      var a, b := Issue(r, i), Issue(r', i);
      || (a.Merges? && b.Merges? && a.addr == b.addr == addr && F.Aligned(addr, 4))
      || (a.Stores? && b == Stores(addr, a.size, 1) && a.addr == addr && a.value == 0 && F.Aligned(addr, a.size))
    ensures
      var o, o' := Exec(r, mem, Pages(mem), i), Exec(r', mem, Pages(mem), i);
      o.Done? && o'.Done? && o.mem != o'.mem
  {
    var a := Issue(r, i);
    var size := if a.Stores? then a.size else 4;
    FineIsInside(mem, Pages(mem), addr, size);
    StoresDiffer(i.op, mem, addr, size);
    hide Compute, Merged, Finish, F.Load, F.Store;
  }

  /** What a store does that is not misplaced, with `z` in `rs` and any value in `rt`. */
  lemma StoreGoesTo(i: Instr, z: Word, addr: Word)
    requires ReadsRt(i.op) && MemoryOp(i.op) && !Misplaced(i) && addr == Wrap(z + i.extra)
    requires if i.rs == 0 then addr == i.extra else addr == 0
    ensures forall b: Word ::
      var c := Compute(i, z, b, 0, 0, 0);
      && (c.Stores? || c.Merges?) && c.addr == addr
      && (c.Merges? ==> F.Aligned(addr, 4))
      && (c.Stores? ==> F.AccessSize(c.size) && F.Aligned(addr, c.size) && c.value == b)
      && (c.Stores? <==> i.op == SB || i.op == SH || i.op == SW) && (c.Merges? <==> i.op == SWL || i.op == SWR)
  {
    hide AndBits, OrBits, XorBits, Low16, ShiftLeft, ShiftRight, Quotient, High, Branch, JumpTarget, ProductOf, And,
      Pow2, Plus4, Signed, Wrap;
  }

  /** A misplaced store fails in the same way, whatever it would have stored. */
  lemma MisplacedIsTransparent(i: Instr, l: Reg, r: Registers, mem: Memory)
    requires MemoryOp(i.op) && Misplaced(i) && Behind(r, mem, l)
    ensures TransparentAt(i, r, mem)
  {
    assert Wrap(0 + i.extra) == i.extra;
    assert r[0] == 0 && Settle(r)[0] == 0;
    RaiseSettled(r, Settle(r), i.extra);
    hide AndBits, OrBits, XorBits, Low16, ShiftLeft, ShiftRight, Quotient, High, Branch, JumpTarget, ProductOf, And,
      Pow2, Plus4, Signed,
      Wrap, Raised, Finish, Settle, Settled;
  }

  lemma ExactMemory(i: Instr, l: Reg)
    requires MemoryOp(i.op) && l != 0
    ensures Transparent(i, l) <==> Harmless(i, l)
  {
    hide Compute, Exec, Settle;
    if i.rs == l {
      AddressShows(i, l);
    } else if Reads(i, l) && !Misplaced(i) {
      StoredValueShows(i, l);
    } else {
      forall r: Registers, mem: Memory | Behind(r, mem, l)
        ensures TransparentAt(i, r, mem)
      {
        if Reads(i, l) {
          MisplacedIsTransparent(i, l, r, mem);
        } else {
          ExecSettled(r, Settle(r), mem, Pages(mem), i);
        }
      }
    }
  }

  // ---------- all opcodes ----------

  lemma ExactRegisters(i: Instr, l: Reg)
    requires !MemoryOp(i.op) && l != 0
    ensures Quiet(i, l) <==> Harmless(i, l)
  {
    hide Quiet, Harmless;
    match i.op
    case ADD => ExactAdd(i, l);
    case ADDI => ExactAddi(i, l);
    case ADDIU => ExactAddiu(i, l);
    case ADDU => ExactAddu(i, l);
    case SUB => ExactSub(i, l);
    case SUBU => ExactSubu(i, l);
    case AND => ExactAnd(i, l);
    case ANDI => ExactAndi(i, l);
    case OR => ExactOr(i, l);
    case ORI => ExactOri(i, l);
    case XOR => ExactXor(i, l);
    case XORI => ExactXori(i, l);
    case NOR => ExactNor(i, l);
    case LUI => ExactLui(i, l);
    case SLL => ExactSll(i, l);
    case SLLV => ExactSllv(i, l);
    case SRA | SRL => ExactSraSrl(i, l);
    case SRAV | SRLV => ExactSravSrlv(i, l);
    case SLT => ExactSlt(i, l);
    case SLTI => ExactSlti(i, l);
    case SLTIU => ExactSltiu(i, l);
    case SLTU => ExactSltu(i, l);
    case MULT | MULTU => ExactMult(i, l);
    case DIV | DIVU => ExactDiv(i, l);
    case MFHI | MFLO | MTHI | MTLO => ExactMoves(i, l);
    case BEQ | BNE | BGEZ | BLTZ | BGTZ | BLEZ => ExactBranch(i, l);
    case BGEZAL | BLTZAL => ExactBranchAndLink(i, l);
    case J | JAL | JR | JALR => ExactJump(i, l);
    case SYSCALL | RES | UNIMP => ExactTrap(i, l);
  }

  /**
   Restarting instruction `i` behind a pending load into register `l` is never seen, for any
   contents of registers and memory and any faults, if and only if its fields say so.
   */
  lemma RestartIsNeverSeen(i: Instr, l: Reg)
    requires l != 0
    ensures NeverSeen(i, l) <==> Harmless(i, l)
  {
    hide NeverSeen, Transparent, Quiet, Harmless;
    NeverSeenIsTransparent(i, l);
    if MemoryOp(i.op) {
      ExactMemory(i, l);
    } else {
      TransparentIsQuiet(i, l);
      ExactRegisters(i, l);
    }
  }
}
