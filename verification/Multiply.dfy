/** The shift-and-add multiplication of the simulated processor. */
module Multiplication {
  import opened Numbers

  const W: int := 0x1_0000_0000

  /** 32-bit values, read as unsigned and as signed. */
  type Word = x: int | 0 <= x < 0x1_0000_0000
  type Int = x: int | -0x8000_0000 <= x < 0x8000_0000

  function AsWord(x: Int): Word {
    if x < 0 then x + W else x
  }

  function Signed(x: Word): Int {
    if x >= 0x8000_0000 then x - W else x
  }

  /** Negation as the machine does it: the least value is its own negative. */
  function Negate(x: Int): Int {
    if x == -0x8000_0000 then x else -x
  }

  function Double(hi: Word, lo: Word): nat {
    hi * W + lo
  }

  /** The double-length product that the architecture asks for, signed ones in two's complement. */
  function Product(a: Int, b: Int, signedArith: bool): int {
    if signedArith then (a * b) % (W * W) else AsWord(a) * AsWord(b)
  }

  lemma MulMonotone(b: nat, x: nat, y: nat)
    requires x <= y
    ensures b * x <= b * y
  {
  }

  lemma ProductBelow(a: Word, b: Word)
    ensures 0 <= a * b < W * W
  {
    MulMonotone(b, a, W - 1);
  }

  /** Where the loop is after `i` bits: `low` is the part of `a` used so far, `rest` what is left. */
  ghost predicate Loop(aBits: Word, b: Word, negative: bool, a: Int, bHi: Word, bLo: Word, hi: Word, lo: Word,
                       pow: nat, top: nat, low: nat, rest: nat) {
    && pow > 0 && top > 0 && pow * top == W
    && aBits == low + pow * rest && rest < top
    && a == rest - (if negative then top else 0)
    && Double(bHi, bLo) == b * pow && Double(hi, lo) == b * low
  }

  /** Adding the shifted `b` with a carry from the low word to the high word. */
  method AddDouble(hi: Word, lo: Word, bHi: Word, bLo: Word) returns (hi': Word, lo': Word)
    requires Double(hi, lo) + Double(bHi, bLo) < W * W
    ensures Double(hi', lo') == Double(hi, lo) + Double(bHi, bLo)
  {
    lo' := (lo + bLo) % W;
    hi' := hi;
    if lo' < bLo {
      hi' := (hi' + 1) % W;
    }
    hi' := (hi' + bHi) % W;
  }

  /** Shifting the double word left by one. */
  method ShiftDouble(bHi: Word, bLo: Word) returns (bHi': Word, bLo': Word)
    requires 2 * Double(bHi, bLo) < W * W
    ensures Double(bHi', bLo') == 2 * Double(bHi, bLo)
  {
    bHi' := bHi * 2 % W;
    if bLo >= 0x8000_0000 {
      bHi' := bHi' + 1;
    }
    bLo' := bLo * 2 % W;
  }

  /** The sum after adding for a set bit is still in range, and is the next partial product. */
  lemma NextPartial(aBits: Word, b: Word, pow: nat, low: nat, rest: nat)
    requires aBits == low + pow * rest && rest % 2 == 1
    ensures b * low + b * pow == b * (low + pow) < W * W
    ensures aBits == (low + pow) + pow * (rest - 1)
  {
    MulMonotone(pow, 1, rest);
    ProductBelow(aBits, b);
    MulMonotone(b, low + pow, aBits);
  }

  lemma NextShift(b: Word, pow: nat, top: nat)
    requires pow * top == W && top > 1
    ensures 2 * (b * pow) == b * (2 * pow) < W * W
  {
    MulMonotone(pow, 2, top);
    ProductBelow(W - 1, b);
    MulMonotone(b, 2 * pow, W);
    assert b * W <= (W - 1) * W;
  }

  /** Halving an even remainder. */
  lemma NextHalf(aBits: Word, pow: nat, top: nat, low: nat, rest: nat)
    requires aBits == low + pow * rest && rest % 2 == 0 && pow * top == W && top % 2 == 0
    ensures aBits == low + (2 * pow) * (rest / 2) && (2 * pow) * (top / 2) == W
  {
    assert pow * rest == pow * (2 * (rest / 2)) == (2 * pow) * (rest / 2);
    assert pow * top == pow * (2 * (top / 2)) == (2 * pow) * (top / 2);
  }

  lemma SameParity(a: int, rest: nat, top: nat, negative: bool)
    requires a == rest - (if negative then top else 0) && top % 2 == 0
    ensures a % 2 == rest % 2
  {
  }

  /** What is left of `a`, and its lowest bit. */
  lemma LowestBit(aBits: Word, b: Word, negative: bool, a: Int, bHi: Word, bLo: Word, hi: Word, lo: Word,
                  pow: nat, top: nat, low: nat, rest: nat)
    requires Loop(aBits, b, negative, a, bHi, bLo, hi, lo, pow, top, low, rest) && top % 2 == 0 && top > 1
    ensures a % 2 == rest % 2
    ensures rest % 2 == 1 ==> Double(hi, lo) + Double(bHi, bLo) == b * (low + pow) < W * W
    ensures 2 * Double(bHi, bLo) < W * W
    ensures a == 1 ==> b * (low + pow) == aBits * b
  {
    SameParity(a, rest, top, negative);
    if rest % 2 == 1 {
      NextPartial(aBits, b, pow, low, rest);
    }
    NextShift(b, pow, top);
    if a == 1 {
      LastBit(aBits, b, negative, pow, top, low, rest);
    }
  }

  lemma NextLoop(aBits: Word, b: Word, negative: bool, a: Int, bHi: Word, bLo: Word, hi: Word, lo: Word,
                 pow: nat, top: nat, low: nat, rest: nat, bHi': Word, bLo': Word, hi': Word, lo': Word)
    requires Loop(aBits, b, negative, a, bHi, bLo, hi, lo, pow, top, low, rest) && top % 2 == 0 && top > 1
    requires Double(bHi', bLo') == 2 * Double(bHi, bLo)
    requires Double(hi', lo') == if rest % 2 == 1 then b * (low + pow) else Double(hi, lo)
    ensures
      var low' := if rest % 2 == 1 then low + pow else low;
      Loop(aBits, b, negative, a / 2, bHi', bLo', hi', lo', 2 * pow, top / 2, low', rest / 2)
  {
    if rest % 2 == 1 {
      NextPartial(aBits, b, pow, low, rest);
    }
    NextShift(b, pow, top);
    NextHalf(aBits, pow, top, if rest % 2 == 1 then low + pow else low, rest - rest % 2);
  }

  /** One pass through the loop body; `out` if it breaks out. */
  method Pass(ghost aBits: Word, ghost b: Word, ghost negative: bool, a: Int, bHi: Word, bLo: Word, hi: Word, lo: Word,
              ghost pow: nat, ghost top: nat, ghost low: nat, ghost rest: nat)
    returns (out: bool, a': Int, bHi': Word, bLo': Word, hi': Word, lo': Word, ghost low': nat)
    requires Loop(aBits, b, negative, a, bHi, bLo, hi, lo, pow, top, low, rest) && top % 2 == 0 && top > 1
    ensures out ==> Double(hi', lo') == aBits * b
    ensures !out ==> Loop(aBits, b, negative, a', bHi', bLo', hi', lo', 2 * pow, top / 2, low', rest / 2)
  {
    hide Loop, Double;
    a', bHi', bLo', hi', lo' := a, bHi, bLo, hi, lo;
    low' := low;
    out := false;
    LowestBit(aBits, b, negative, a, bHi, bLo, hi, lo, pow, top, low, rest);
    if a % 2 == 1 {
      hi', lo' := AddDouble(hi, lo, bHi, bLo);
      low' := low + pow;
      if a == 1 {
        return true, a', bHi', bLo', hi', lo', low';
      }
    }
    bHi', bLo' := ShiftDouble(bHi, bLo);
    a' := a / 2;
    NextLoop(aBits, b, negative, a, bHi, bLo, hi, lo, pow, top, low, rest, bHi', bLo', hi', lo');
  }

  /** If only the lowest bit of `a` is left, the partial product is the product. */
  lemma LastBit(aBits: Word, b: Word, negative: bool, pow: nat, top: nat, low: nat, rest: nat)
    requires aBits == low + pow * rest && rest < top && 1 == rest - (if negative then top else 0)
    ensures b * (low + pow) == aBits * b
  {
    assert rest == 1;
    assert low + pow == aBits;
  }

  /** The main loop: unsigned multiplication of the bit patterns, however `a` is shifted. */
  method MultiplyBits(a0: Int, b: Word) returns (hi: Word, lo: Word)
    ensures Double(hi, lo) == AsWord(a0) * b
  {
    var a, bLo, bHi := a0, b, 0;
    lo, hi := 0, 0;
    ghost var aBits, negative := AsWord(a0), a0 < 0;
    ghost var pow: nat, top: nat, low: nat, rest: nat := 1, W, 0, aBits;
    Pow2Of32();
    var i := 0;
    while i < 32
      invariant 0 <= i <= 32 && top == Pow2(32 - i)
      invariant Loop(aBits, b, negative, a, bHi, bLo, hi, lo, pow, top, low, rest)
    {
      ghost var low';
      var out;
      Pow2IsEven(32 - i);
      out, a, bHi, bLo, hi, lo, low' := Pass(aBits, b, negative, a, bHi, bLo, hi, lo, pow, top, low, rest);
      if out {
        return;
      }
      pow, top, low, rest := 2 * pow, top / 2, low', rest / 2;
      i := i + 1;
    }
    assert top == 1;
    assert low == aBits;
  }

  lemma Pow2IsEven(n: nat)
    requires n > 0
    ensures Pow2(n) % 2 == 0 && Pow2(n) / 2 == Pow2(n - 1) && Pow2(n) > 1
  {
  }

  /** Two's complement of a double word. */
  method NegateDouble(hi: Word, lo: Word) returns (hi': Word, lo': Word)
    requires Double(hi, lo) > 0
    ensures Double(hi', lo') == W * W - Double(hi, lo)
  {
    hi', lo' := W - 1 - hi, W - 1 - lo;
    lo' := (lo' + 1) % W;
    if lo' == 0 {
      hi' := (hi' + 1) % W;
    }
  }

  /** `Mult`: for all operands, the least integer included, `hi` and `lo` hold exactly the 64-bit product. */
  method Mult(a: Int, b: Int, signedArith: bool) returns (hi: Word, lo: Word)
    ensures Double(hi, lo) == Product(a, b, signedArith)
  {
    if a == 0 || b == 0 {
      return 0, 0;
    }
    var negative := false;
    var a', b' := a, b;
    if signedArith {
      if a < 0 {
        negative := !negative;
        a' := Negate(a);
      }
      if b < 0 {
        negative := !negative;
        b' := Negate(b);
      }
    }
    hi, lo := MultiplyBits(a', AsWord(b'));
    if signedArith {
      Magnitudes(a, b);
    }
    if negative {
      hi, lo := NegateDouble(hi, lo);
    }
  }

  function Magnitude(x: int): nat {
    if x < 0 then -x else x
  }

  lemma MagnitudeBits(x: Int)
    ensures AsWord(if x < 0 then Negate(x) else x) == Magnitude(x) <= 0x8000_0000
  {
  }

  lemma SignOfProduct(a: Int, b: Int)
    ensures a * b == if (a < 0) != (b < 0) then -(Magnitude(a) * Magnitude(b)) else Magnitude(a) * Magnitude(b)
  {
  }

  /** The signed product from the magnitudes. */
  lemma Magnitudes(a: Int, b: Int)
    requires a != 0 && b != 0
    ensures
      var m := AsWord(if a < 0 then Negate(a) else a) * AsWord(if b < 0 then Negate(b) else b);
      && 0 < m < W * W
      && Product(a, b, true) == if (a < 0) != (b < 0) then W * W - m else m
  {
    MagnitudeBits(a);
    MagnitudeBits(b);
    var x, y := Magnitude(a), Magnitude(b);
    SignOfProduct(a, b);
    ProductBelow(x, y);
    assert x * y > 0 by {
      MulMonotone(x, 1, y);
    }
  }
}
