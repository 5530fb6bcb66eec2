/** A packed bitmap: 32 bits to a word, changed in place. */
module Bitmaps {
  import opened Numbers

  const BITS_IN_WORD := 32

  function DivRoundUp(n: nat, s: nat): nat
    requires s > 0
  {
    n / s + (if n % s > 0 then 1 else 0)
  }

  // ---------- one word ----------

  type word = w: int | 0 <= w < 0x1_0000_0000

  /** `w & 1 << k`, as a truth value. */
  predicate Bit(w: nat, k: nat)
    decreases k
  {
    if k == 0 then w % 2 == 1 else Bit(w / 2, k - 1)
  }

  /** `w | 1 << k`. */
  function SetBit(w: nat, k: nat): (r: nat)
    decreases k
  {
    if k == 0 then w / 2 * 2 + 1 else SetBit(w / 2, k - 1) * 2 + w % 2
  }

  /** `w & ~(1 << k)`. */
  function ResetBit(w: nat, k: nat): (r: nat)
    ensures r <= w
    decreases k
  {
    if k == 0 then w / 2 * 2 else ResetBit(w / 2, k - 1) * 2 + w % 2
  }

  /** Bit `k` is the one that counts for two to the `k`. */
  lemma {:induction false} BitIs(w: nat, k: nat)
    ensures Bit(w, k) <==> w / Pow2(k) % 2 == 1
    decreases k
  {
    if k > 0 {
      BitIs(w / 2, k - 1);
      DivideTwice(w, 2, Pow2(k - 1));
    }
  }

  lemma {:induction false} BitAfterSet(w: nat, k: nat, m: nat)
    ensures Bit(SetBit(w, k), m) == (m == k || Bit(w, m))
    decreases k
  {
    if k > 0 && m > 0 {
      BitAfterSet(w / 2, k - 1, m - 1);
    }
  }

  lemma {:induction false} BitAfterReset(w: nat, k: nat, m: nat)
    ensures Bit(ResetBit(w, k), m) == (m != k && Bit(w, m))
    decreases k
  {
    if k > 0 && m > 0 {
      BitAfterReset(w / 2, k - 1, m - 1);
    }
  }

  /** Setting a bit below `n` stays within `n` bits. */
  lemma {:induction false} SetBitFits(w: nat, k: nat, n: nat)
    requires k < n && w < Pow2(n)
    ensures SetBit(w, k) < Pow2(n)
    decreases k
  {
    var half := Pow2(n - 1);
    assert Pow2(n) == 2 * half;
    assert w / 2 < half;
    if k > 0 {
      SetBitFits(w / 2, k - 1, n - 1);
    }
  }

  lemma SetBitIsWord(w: word, k: nat)
    requires k < BITS_IN_WORD
    ensures SetBit(w, k) < 0x1_0000_0000
  {
    Pow2Of32();
    SetBitFits(w, k, 32);
  }

  // ---------- what a bitmap stands for ----------

  function Unpack(words: seq<word>, numBits: nat): (bits: seq<bool>)
    requires |words| == DivRoundUp(numBits, BITS_IN_WORD)
    ensures |bits| == numBits
  {
    seq(numBits, i requires 0 <= i < numBits => Bit(words[i / BITS_IN_WORD], i % BITS_IN_WORD))
  }

  /** Item `i` is bit `i % 32`, counted from the least significant, of word `i / 32`. */
  lemma PackedWhere(words: seq<word>, numBits: nat, i: nat)
    requires |words| == DivRoundUp(numBits, BITS_IN_WORD) && i < numBits
    ensures i / 32 < |words| && (Unpack(words, numBits)[i] <==> words[i / 32] / Pow2(i % 32) % 2 == 1)
  {
    BitIs(words[i / 32], i % 32);
  }

  /** The least clear bit from `i` on, or the length. */
  function FirstClear(bits: seq<bool>, i: nat): (k: nat)
    requires i <= |bits|
    ensures i <= k <= |bits|
    ensures k < |bits| ==> !bits[k]
    ensures forall m :: i <= m < k ==> bits[m]
    decreases |bits| - i
  {
    if i == |bits| || !bits[i] then i else FirstClear(bits, i + 1)
  }

  function ClearCount(bits: seq<bool>): (n: nat)
    ensures n <= |bits|
  {
    if bits == [] then 0
    else ClearCount(bits[..|bits| - 1]) + (if bits[|bits| - 1] then 0 else 1)
  }

  /** Marking a clear bit uses up exactly one. */
  lemma {:induction false} CountAfterMark(bits: seq<bool>, k: nat)
    requires k < |bits| && !bits[k]
    ensures ClearCount(bits[k := true]) == ClearCount(bits) - 1
  {
    var n := |bits| - 1;
    if k < n {
      assert bits[k := true][..n] == bits[..n][k := true];
      CountAfterMark(bits[..n], k);
    } else {
      assert bits[k := true][..n] == bits[..n];
    }
  }

  /** `Find` fails exactly when nothing is clear. */
  lemma {:induction false} FullMeansNoneClear(bits: seq<bool>)
    ensures ClearCount(bits) == 0 <==> forall m :: 0 <= m < |bits| ==> bits[m]
    ensures ClearCount(bits) == 0 <==> FirstClear(bits, 0) == |bits|
  {
    if bits != [] {
      var n := |bits| - 1;
      FullMeansNoneClear(bits[..n]);
      if ClearCount(bits) == 0 {
        forall m | 0 <= m < |bits| ensures bits[m] {
          if m < n { assert bits[..n][m]; }
        }
      }
    }
  }

  class Bitmap {
    const numBits: nat
    const words: array<word>

    ghost predicate Valid() {
      numBits > 0 && words.Length == DivRoundUp(numBits, BITS_IN_WORD)
    }

    ghost function Bits(): (bits: seq<bool>)
      requires Valid()
      reads words
      ensures |bits| == numBits
    {
      Unpack(words[..], numBits)
    }

    constructor (nitems: nat)
      requires nitems > 0
      ensures Valid() && numBits == nitems && fresh(words)
      ensures forall k :: 0 <= k < nitems ==> !Bits()[k]
    {
      numBits := nitems;
      words := new word[DivRoundUp(nitems, BITS_IN_WORD)];
      new;
      var i := 0;
      while i < numBits
        invariant 0 <= i <= numBits
        invariant forall k :: 0 <= k < i ==> !Bits()[k]
      {
        Clear(i);
        i := i + 1;
      }
    }

    method Mark(which: nat)
      requires Valid() && which < numBits
      modifies words
      ensures Bits() == old(Bits())[which := true]
    {
      ghost var before := words[..];
      var w := which / BITS_IN_WORD;
      SetBitIsWord(words[w], which % BITS_IN_WORD);
      words[w] := SetBit(words[w], which % BITS_IN_WORD);
      forall k | 0 <= k < numBits
        ensures Bits()[k] == Unpack(before, numBits)[which := true][k]
      {
        BitAfterSet(before[w], which % BITS_IN_WORD, k % BITS_IN_WORD);
      }
    }

    method Clear(which: nat)
      requires Valid() && which < numBits
      modifies words
      ensures Bits() == old(Bits())[which := false]
    {
      ghost var before := words[..];
      var w := which / BITS_IN_WORD;
      words[w] := ResetBit(words[w], which % BITS_IN_WORD);
      forall k | 0 <= k < numBits
        ensures Bits()[k] == Unpack(before, numBits)[which := false][k]
      {
        BitAfterReset(before[w], which % BITS_IN_WORD, k % BITS_IN_WORD);
      }
    }

    method Test(which: nat) returns (marked: bool)
      requires Valid() && which < numBits
      ensures marked == Bits()[which]
    {
      marked := Bit(words[which / BITS_IN_WORD], which % BITS_IN_WORD);
    }

    /** Marks and returns the least clear bit; -1 if there is none. */
    method Find() returns (which: int)
      requires Valid()
      modifies words
      ensures var k := FirstClear(old(Bits()), 0);
              if k < numBits then which == k && Bits() == old(Bits())[k := true]
              else which == -1 && Bits() == old(Bits())
    {
      var i := 0;
      while i < numBits
        invariant 0 <= i <= numBits
        invariant Bits() == old(Bits()) && words[..] == old(words[..])
        invariant FirstClear(old(Bits()), 0) == FirstClear(old(Bits()), i)
      {
        var marked := Test(i);
        if !marked {
          Mark(i);
          return i;
        }
        i := i + 1;
      }
      return -1;
    }

    method CountClear() returns (count: nat)
      requires Valid()
      ensures count == ClearCount(Bits())
    {
      count := 0;
      var i := 0;
      while i < numBits
        invariant 0 <= i <= numBits
        invariant count == ClearCount(Bits()[..i])
      {
        var marked := Test(i);
        if !marked {
          count := count + 1;
        }
        assert Bits()[..i + 1][..i] == Bits()[..i];
        i := i + 1;
      }
      assert Bits()[..numBits] == Bits();
    }
  }
}
