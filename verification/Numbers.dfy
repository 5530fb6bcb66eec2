/** Arithmetic that several modules share. */
module Numbers {
  function Min(a: int, b: int): int {
    if a < b then a else b
  }

  /** Powers of two. */
  function Pow2(n: nat): (p: nat)
    ensures p >= 1
  {
    if n == 0 then 1 else 2 * Pow2(n - 1)
  }

  lemma {:induction false} Pow2Adds(m: nat, n: nat)
    ensures Pow2(m + n) == Pow2(m) * Pow2(n)
  {
    if n > 0 {
      Pow2Adds(m, n - 1);
    }
  }

  lemma Pow2Of32()
    ensures Pow2(32) == 0x1_0000_0000
  {
    assert Pow2(4) == 16;
    Pow2Adds(4, 4);
    Pow2Adds(8, 8);
    Pow2Adds(16, 16);
  }

  // ---------- division ----------

  lemma MultipleIsFar(d: int, k: int)
    requires d >= 0
    ensures k >= 1 ==> d * k >= d
    ensures k <= -1 ==> d * k <= 0 - d
  {
    if k >= 1 {
      assert d * k == d + d * (k - 1);
    } else if k <= -1 {
      assert d * k == d * (k + 1) - d;
    }
  }

  lemma ModulusIsUnique(x: int, d: nat, q: int, r: nat)
    requires x == d * q + r && r < d
    ensures x % d == r
  {
    var q', r' := x / d, x % d;
    assert d * (q - q') == r' - r;
    MultipleIsFar(d, q - q');
  }

  lemma QuotientIsUnique(x: int, d: nat, q: int, r: nat)
    requires x == d * q + r && r < d
    ensures x / d == q
  {
    var q', r' := x / d, x % d;
    assert d * (q - q') == r' - r;
    MultipleIsFar(d, q - q');
  }

  lemma DivideTwice(x: int, c: nat, p: nat)
    requires c >= 1 && p >= 1 && c * p >= 1
    ensures x / c / p == x / (c * p)
  {
    var q := x / c;
    var r := q % p;
    assert q == p * (q / p) + r;
    var rest := x % c + c * r;
    assert x == c * p * (q / p) + rest by {
      assert c * (p * (q / p)) == c * p * (q / p);
      assert c * q == c * (p * (q / p)) + c * r;
    }
    assert 0 <= rest < c * p by {
      assert c * p == c * r + c * (p - r);
      MultipleIsFar(c, p - r);
      assert c * r >= 0;
    }
    QuotientIsUnique(x, c * p, q / p, rest);
  }

  // ---------- bits ----------

  /** The bits that `a` and `b` have in common; with them, or is `a + b - And(a, b)`. */
  function And(a: nat, b: nat): (r: nat)
    ensures r <= a && r <= b
    decreases a
  {
    if a == 0 then 0 else 2 * And(a / 2, b / 2) + a % 2 * (b % 2)
  }

  lemma {:induction false} OrFits(a: nat, b: nat, n: nat)
    requires a < Pow2(n) && b < Pow2(n)
    ensures a + b - And(a, b) < Pow2(n)
    decreases n
  {
    if n > 0 {
      OrFits(a / 2, b / 2, n - 1);
      assert a == 2 * (a / 2) + a % 2 && b == 2 * (b / 2) + b % 2;
    }
  }

  lemma {:induction false} AndSelf(a: nat)
    ensures And(a, a) == a
    decreases a
  {
    if a > 0 {
      AndSelf(a / 2);
    }
  }

  lemma {:induction false} AndZero(a: nat)
    ensures And(a, 0) == 0
    decreases a
  {
    if a > 0 {
      AndZero(a / 2);
    }
  }

  /** All ones below `n` mask nothing that fits. */
  lemma {:induction false} AndOnes(a: nat, n: nat)
    requires a < Pow2(n)
    ensures And(Pow2(n) - 1, a) == And(a, Pow2(n) - 1) == a
    decreases n
  {
    if n > 0 {
      AndOnes(a / 2, n - 1);
      assert (Pow2(n) - 1) / 2 == Pow2(n - 1) - 1 && (Pow2(n) - 1) % 2 == 1;
    }
  }

  function Sum(sizes: seq<nat>): nat {
    if sizes == [] then 0 else Sum(sizes[..|sizes| - 1]) + sizes[|sizes| - 1]
  }

  /** No value occurs twice. */
  predicate Distinct(s: seq<int>) {
    forall i, j :: 0 <= i < j < |s| ==> s[i] != s[j]
  }
}
