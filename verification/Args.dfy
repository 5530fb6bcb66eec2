/** Program arguments: laid out on the child's stack, read back by the next `Exec`. */
module ArgLayout {
  import opened Numbers
  import opened FlatMemory
  import opened Transfer

  const MAX_ARG_COUNT := 32
  const MAX_ARG_LENGTH := 128

  predicate ArgsOk(args: seq<seq<byte>>) {
    && |args| < MAX_ARG_COUNT
    && forall i :: 0 <= i < |args| ==> 0 < |args[i]| && 0 !in args[i]
  }

  /** The stack pointer after `c` strings: each takes its length and one byte more. */
  function Top(args: seq<seq<byte>>, sp: int, c: nat): (t: int)
    requires c <= |args|
    ensures t <= sp - c
    decreases c
  {
    if c == 0 then sp else Top(args, sp, c - 1) - (|args[c - 1]| + 1)
  }

  /** The addresses of all the strings. */
  function Tops(args: seq<seq<byte>>, sp: int): (tops: seq<int>)
    ensures |tops| == |args|
  {
    seq(|args|, i requires 0 <= i < |args| => Top(args, sp, i + 1))
  }

  lemma {:induction false} TopDescends(args: seq<seq<byte>>, sp: int, i: nat, c: nat)
    requires i <= c <= |args|
    ensures Top(args, sp, c) <= Top(args, sp, i)
    decreases c
  {
    if i < c {
      TopDescends(args, sp, i, c - 1);
    }
  }

  /** Where `argv` goes: below the strings, aligned, room for the null pointer. */
  function Base(args: seq<seq<byte>>, sp: int): int {
    var t := Top(args, sp, |args|);
    t - t % 4 - (4 * |args| + 4)
  }

  lemma BaseFacts(args: seq<seq<byte>>, sp: int)
    ensures Base(args, sp) % 4 == 0
    ensures Base(args, sp) + 4 * |args| + 4 <= Top(args, sp, |args|) <= sp
  {
    var t := Top(args, sp, |args|);
    assert t - t % 4 == 4 * (t / 4);
    assert Base(args, sp) == 4 * (t / 4 - |args| - 1);
  }

  /** The bytes that the first `c` strings take, each with a byte more. */
  function Lengths(args: seq<seq<byte>>, c: nat): (sizes: seq<nat>)
    requires c <= |args|
    ensures |sizes| == c
  {
    seq(c, i requires 0 <= i < c => |args[i]| + 1)
  }

  lemma {:induction false} TopIs(args: seq<seq<byte>>, sp: int, c: nat)
    requires c <= |args|
    ensures Top(args, sp, c) == sp - Sum(Lengths(args, c))
    decreases c
  {
    if c > 0 {
      TopIs(args, sp, c - 1);
      assert Lengths(args, c)[..c - 1] == Lengths(args, c - 1);
    }
  }

  /** Room for everything, above address 0 and below 2 GB. */
  predicate Room(memory: seq<byte>, args: seq<seq<byte>>, sp: int) {
    0 < Base(args, sp) && sp <= |memory| < 0x8000_0000
  }

  /** Memory with the first `c` strings written, each without its NUL. */
  function WithStrings(memory: seq<byte>, args: seq<seq<byte>>, sp: int, c: nat): (m: seq<byte>)
    requires c <= |args| && sp <= |memory| && 0 <= Top(args, sp, c)
    ensures |m| == |memory|
    decreases c
  {
    if c == 0 then memory
    else Splice(WithStrings(memory, args, sp, c - 1), Top(args, sp, c), args[c - 1])
  }

  /** Memory with the first `c` pointers written. */
  function WithPointers(memory: seq<byte>, args: seq<seq<byte>>, sp: int, c: nat): (m: seq<byte>)
    requires c <= |args| && Room(memory, args, sp)
    ensures |m| == |memory|
    decreases c
  {
    if c == 0 then WithStrings(memory, args, sp, |args|)
    else Store(WithPointers(memory, args, sp, c - 1), Base(args, sp) + 4 * (c - 1), 4, Top(args, sp, c))
  }

  /** The whole of `WriteArgs`. */
  function LaidOut(memory: seq<byte>, args: seq<seq<byte>>, sp: int): (m: seq<byte>)
    requires Room(memory, args, sp)
    ensures |m| == |memory|
  {
    Store(WithPointers(memory, args, sp, |args|), Base(args, sp) + 4 * |args|, 4, 0)
  }

  // ---------- what the layout holds ----------

  /** The byte behind string `i` is left as it was. */
  lemma {:induction false} StringGap(memory: seq<byte>, args: seq<seq<byte>>, sp: int, c: nat, i: nat)
    requires i < c <= |args| && sp <= |memory| && 0 <= Top(args, sp, c)
    ensures 0 < Top(args, sp, i) <= |memory|
    ensures WithStrings(memory, args, sp, c)[Top(args, sp, i) - 1] == memory[Top(args, sp, i) - 1]
    decreases c
  {
    var a := Top(args, sp, i) - 1;
    TopDescends(args, sp, i, c - 1);
    if i + 1 < c {
      StringGap(memory, args, sp, c - 1, i);
    } else {
      StringsBelow(memory, args, sp, c - 1, a);
    }
  }

  lemma {:induction false} StringsBelow(memory: seq<byte>, args: seq<seq<byte>>, sp: int, c: nat, a: nat)
    requires c <= |args| && sp <= |memory| && a < Top(args, sp, c)
    ensures a < |memory| && WithStrings(memory, args, sp, c)[a] == memory[a]
    decreases c
  {
    if c > 0 {
      StringsBelow(memory, args, sp, c - 1, a);
    }
  }

  lemma {:induction false} StringsInside(memory: seq<byte>, args: seq<seq<byte>>, sp: int, c: nat, i: nat)
    requires i < c <= |args| && sp <= |memory| && 0 <= Top(args, sp, c)
    ensures Top(args, sp, c) <= Top(args, sp, i + 1)
    ensures Top(args, sp, i + 1) + |args[i]| == Top(args, sp, i) - 1 < |memory|
    ensures WithStrings(memory, args, sp, c)[Top(args, sp, i + 1)..Top(args, sp, i) - 1] == args[i]
    decreases c
  {
    hide Splice;
    TopDescends(args, sp, i + 1, c);
    TopDescends(args, sp, 0, i);
    if i + 1 < c {
      StringsInside(memory, args, sp, c - 1, i);
      TopDescends(args, sp, i + 1, c - 1);
      SpliceBelow(WithStrings(memory, args, sp, c - 1), Top(args, sp, c), args[c - 1], Top(args, sp, i + 1),
        Top(args, sp, i) - 1);
    }
  }

  lemma SpliceBelow(m: seq<byte>, at: nat, data: seq<byte>, from: nat, to: nat)
    requires at + |data| <= from <= to <= |m|
    ensures Splice(m, at, data)[from..to] == m[from..to]
  {
  }

  lemma StoreOutside(m: seq<byte>, at: nat, value: int, a: nat)
    requires at + 4 <= |m| && a < |m| && (a < at || at + 4 <= a)
    ensures Store(m, at, 4, value)[a] == m[a]
  {
  }

  lemma {:induction false} PointersOutside(memory: seq<byte>, args: seq<seq<byte>>, sp: int, c: nat, a: nat)
    requires c <= |args| && Room(memory, args, sp) && a < |memory|
    requires a < Base(args, sp) || Base(args, sp) + 4 * c <= a
    ensures WithPointers(memory, args, sp, c)[a] == WithStrings(memory, args, sp, |args|)[a]
    decreases c
  {
    if c > 0 {
      PointersOutside(memory, args, sp, c - 1, a);
      BaseFacts(args, sp);
      hide Base, Top, WithStrings, Store;
      StoreOutside(WithPointers(memory, args, sp, c - 1), Base(args, sp) + 4 * (c - 1), Top(args, sp, c), a);
    }
  }

  lemma WordBack(m: seq<byte>, a: nat, p: int)
    requires a + 4 <= |m| && 0 <= p < 0x8000_0000
    ensures Load(Store(m, a, 4, p), a, 4) == p
  {
    StoreThenLoad(m, a, 4, p);
  }

  /** The pointer written last. */
  lemma LastPointer(memory: seq<byte>, args: seq<seq<byte>>, sp: int, c: nat)
    requires 0 < c <= |args| && Room(memory, args, sp)
    ensures Load(WithPointers(memory, args, sp, c), Base(args, sp) + 4 * (c - 1), 4) == Top(args, sp, c)
  {
    BaseFacts(args, sp);
    TopDescends(args, sp, c, |args|);
    TopDescends(args, sp, 0, c);
    WordBack(WithPointers(memory, args, sp, c - 1), Base(args, sp) + 4 * (c - 1), Top(args, sp, c));
  }

  lemma {:induction false} PointersInside(memory: seq<byte>, args: seq<seq<byte>>, sp: int, c: nat, i: nat)
    requires i < c <= |args| && Room(memory, args, sp)
    ensures Load(WithPointers(memory, args, sp, c), Base(args, sp) + 4 * i, 4) == Top(args, sp, i + 1)
    decreases c
  {
    if i + 1 == c {
      LastPointer(memory, args, sp, c);
    } else {
      PointersInside(memory, args, sp, c - 1, i);
      var base := Base(args, sp);
      StoreElsewhere(WithPointers(memory, args, sp, c - 1), base + 4 * (c - 1), 4, Top(args, sp, c), base + 4 * i, 4);
    }
  }

  /** `n` pointers at `base`, aligned, followed by a null; what lies beyond the limit does not matter. */
  ghost predicate Pointers(memory: seq<byte>, base: int, n: nat) {
    && 0 < base && base % 4 == 0
    && (forall i :: 0 <= i < n && i < MAX_ARG_COUNT ==> PointerAt(memory, base, i))
    && (n < MAX_ARG_COUNT ==> base + 4 * n + 4 <= |memory| && Load(memory, base + 4 * n, 4) == 0)
  }

  ghost predicate PointerAt(memory: seq<byte>, base: nat, i: nat) {
    base + 4 * i + 4 <= |memory| && Load(memory, base + 4 * i, 4) != 0
  }

  /** `argv` at `base` is `args`; if there are too many of them, only the pointers matter. */
  ghost predicate Holds(memory: seq<byte>, base: int, args: seq<seq<byte>>) {
    && Pointers(memory, base, |args|)
    && (|args| < MAX_ARG_COUNT ==> forall i :: 0 <= i < |args| ==> ArgAt(memory, base, args, i))
  }

  ghost predicate ArgAt(memory: seq<byte>, base: nat, args: seq<seq<byte>>, i: nat)
    requires i < |args|
  {
    base + 4 * i + 4 <= |memory| && HoldsArg(memory, base + 4 * i, args[i])
  }

  /** C strings, terminator included. */
  function WithNuls(args: seq<seq<byte>>): (texts: seq<seq<byte>>)
    ensures |texts| == |args|
  {
    seq(|args|, i requires 0 <= i < |args| => args[i] + [0])
  }

  /** What fits into the buffer of one argument: the string with its NUL, or its first bytes. */
  function Cut(text: seq<byte>): seq<byte> {
    if |text| < MAX_ARG_LENGTH then text + [0] else text[..MAX_ARG_LENGTH]
  }

  function Saved(args: seq<seq<byte>>): (texts: seq<seq<byte>>)
    ensures |texts| == |args|
    ensures (forall i :: 0 <= i < |args| ==> |args[i]| < MAX_ARG_LENGTH) ==> texts == WithNuls(args)
  {
    seq(|args|, i requires 0 <= i < |args| => Cut(args[i]))
  }

  ghost predicate HoldsArg(memory: seq<byte>, at: nat, arg: seq<byte>)
    requires at + 4 <= |memory|
  {
    StringAt(memory, Load(memory, at, 4), arg)
  }

  /** The string `text`, ended by a NUL or the end of memory, is at `p`, and what is read of it is inside memory. */
  ghost predicate StringAt(memory: seq<byte>, p: int, text: seq<byte>) {
    && 0 < p && p + Min(|text| + 1, MAX_ARG_LENGTH) <= |memory|
    && IsStrLen(memory, p, |text|)
    && memory[p..p + |text|] == text
  }

  lemma StringCut(memory: seq<byte>, p: int, text: seq<byte>)
    requires StringAt(memory, p, text)
    ensures memory[p..p + Min(|text| + 1, MAX_ARG_LENGTH)] == Cut(text)
  {
    if |text| >= MAX_ARG_LENGTH {
      assert memory[p..p + MAX_ARG_LENGTH] == memory[p..p + |text|][..MAX_ARG_LENGTH];
    }
  }

  lemma HoldsAt(memory: seq<byte>, base: int, args: seq<seq<byte>>, i: nat)
    requires Holds(memory, base, args) && i < |args| < MAX_ARG_COUNT
    ensures (base + 4 * i) % 4 == 0 && base + 4 * i + 4 <= |memory| && HoldsArg(memory, base + 4 * i, args[i])
  {
    assert ArgAt(memory, base, args, i);
  }

  /** The bytes that terminate the strings are not written; they have to be zero already. */
  ghost predicate ZeroStack(memory: seq<byte>, args: seq<seq<byte>>, sp: int) {
    forall a :: Base(args, sp) <= a < sp && 0 <= a < |memory| ==> memory[a] == 0
  }

  lemma LaidOutPointer(memory: seq<byte>, args: seq<seq<byte>>, sp: int, i: nat)
    requires Room(memory, args, sp) && i < |args|
    ensures Load(LaidOut(memory, args, sp), Base(args, sp) + 4 * i, 4) == Top(args, sp, i + 1)
  {
    var n, base := |args|, Base(args, sp);
    PointersInside(memory, args, sp, n, i);
    StoreElsewhere(WithPointers(memory, args, sp, n), base + 4 * n, 4, 0, base + 4 * i, 4);
  }

  lemma LaidOutNull(memory: seq<byte>, args: seq<seq<byte>>, sp: int)
    requires Room(memory, args, sp)
    ensures Load(LaidOut(memory, args, sp), Base(args, sp) + 4 * |args|, 4) == 0
  {
    StoreThenLoad(WithPointers(memory, args, sp, |args|), Base(args, sp) + 4 * |args|, 4, 0);
  }

  lemma LaidOutAbove(memory: seq<byte>, args: seq<seq<byte>>, sp: int, a: nat)
    requires Room(memory, args, sp) && Top(args, sp, |args|) <= a < |memory|
    ensures LaidOut(memory, args, sp)[a] == WithStrings(memory, args, sp, |args|)[a]
  {
    PointersOutside(memory, args, sp, |args|, a);
  }

  /** The layout, seen from the first string up, is the strings. */
  lemma LaidOutSlice(memory: seq<byte>, args: seq<seq<byte>>, sp: int, p: nat, end: nat)
    requires Room(memory, args, sp) && Top(args, sp, |args|) <= p <= end <= |memory|
    ensures LaidOut(memory, args, sp)[p..end] == WithStrings(memory, args, sp, |args|)[p..end]
  {
    var strings, m := WithStrings(memory, args, sp, |args|), LaidOut(memory, args, sp);
    forall a | p <= a < end
      ensures m[a] == strings[a]
    {
      LaidOutAbove(memory, args, sp, a);
    }
  }

  /** Where string `i` and the byte behind it are. */
  lemma Extent(memory: seq<byte>, args: seq<seq<byte>>, sp: int, i: nat)
    requires Room(memory, args, sp) && i < |args|
    ensures 0 < Base(args, sp) < Top(args, sp, |args|) <= Top(args, sp, i + 1)
    ensures Top(args, sp, i + 1) + |args[i]| == Top(args, sp, i) - 1 < sp <= |memory|
  {
    BaseFacts(args, sp);
    TopDescends(args, sp, i + 1, |args|);
    TopDescends(args, sp, 0, i);
  }

  lemma LaidOutNul(memory: seq<byte>, args: seq<seq<byte>>, sp: int, i: nat, end: nat)
    requires Room(memory, args, sp) && ZeroStack(memory, args, sp) && i < |args| && end == Top(args, sp, i) - 1
    ensures end < |memory| && LaidOut(memory, args, sp)[end] == 0
  {
    Extent(memory, args, sp, i);
    LaidOutAbove(memory, args, sp, end);
    StringGap(memory, args, sp, |args|, i);
  }

  lemma LaidOutText(memory: seq<byte>, args: seq<seq<byte>>, sp: int, i: nat, p: nat, end: nat)
    requires Room(memory, args, sp) && i < |args| && p == Top(args, sp, i + 1) && end == Top(args, sp, i) - 1
    ensures p <= end <= |memory| && LaidOut(memory, args, sp)[p..end] == args[i]
  {
    Extent(memory, args, sp, i);
    LaidOutSlice(memory, args, sp, p, end);
    StringsInside(memory, args, sp, |args|, i);
  }

  lemma LaidOutString(memory: seq<byte>, args: seq<seq<byte>>, sp: int, i: nat)
    requires Room(memory, args, sp) && ZeroStack(memory, args, sp) && i < |args|
    ensures
      var p, m := Top(args, sp, i + 1), LaidOut(memory, args, sp);
      && 0 < p && p + |args[i]| < |m| && m[p..p + |args[i]|] == args[i] && m[p + |args[i]|] == 0
  {
    Extent(memory, args, sp, i);
    LaidOutText(memory, args, sp, i, Top(args, sp, i + 1), Top(args, sp, i) - 1);
    LaidOutNul(memory, args, sp, i, Top(args, sp, i) - 1);
  }

  lemma TerminatedString(m: seq<byte>, p: nat, text: seq<byte>)
    requires p + |text| < |m| && m[p..p + |text|] == text && m[p + |text|] == 0 && 0 !in text
    ensures IsStrLen(m, p, |text|)
  {
    forall j | p <= j < p + |text|
      ensures m[j] != 0
    {
      assert m[j] == m[p..p + |text|][j - p];
    }
  }

  lemma LaidOutArg(memory: seq<byte>, args: seq<seq<byte>>, sp: int, i: nat)
    requires ArgsOk(args) && Room(memory, args, sp) && ZeroStack(memory, args, sp) && i < |args|
    ensures HoldsArg(LaidOut(memory, args, sp), Base(args, sp) + 4 * i, args[i])
  {
    LaidOutPointer(memory, args, sp, i);
    LaidOutString(memory, args, sp, i);
    TerminatedString(LaidOut(memory, args, sp), Top(args, sp, i + 1), args[i]);
  }

  /** What `WriteArgs` leaves on a zeroed stack is exactly an `argv` for `args`. */
  lemma LaidOutHolds(memory: seq<byte>, args: seq<seq<byte>>, sp: int)
    requires ArgsOk(args) && Room(memory, args, sp) && ZeroStack(memory, args, sp)
    ensures Holds(LaidOut(memory, args, sp), Base(args, sp), args)
  {
    BaseFacts(args, sp);
    LaidOutNull(memory, args, sp);
    forall i | 0 <= i < |args|
      ensures ArgAt(LaidOut(memory, args, sp), Base(args, sp), args, i)
      ensures PointerAt(LaidOut(memory, args, sp), Base(args, sp), i)
    {
      LaidOutArg(memory, args, sp, i);
    }
  }

  lemma {:induction false} StringsOutside(memory: seq<byte>, args: seq<seq<byte>>, sp: int, c: nat, a: nat)
    requires c <= |args| && sp <= a < |memory| && 0 <= Top(args, sp, c)
    ensures WithStrings(memory, args, sp, c)[a] == memory[a]
    decreases c
  {
    if c > 0 {
      StringsOutside(memory, args, sp, c - 1, a);
      TopDescends(args, sp, 0, c - 1);
    }
  }

  /**
   Where everything is: pointer `i` leads below the first `i + 1` strings, each with a byte more; the pointers and a
   null end at the last multiple of 4 below the strings; what lies below them or above the old stack pointer stays.
   */
  lemma LaidOutPlaces(memory: seq<byte>, args: seq<seq<byte>>, sp: int, i: nat, a: nat)
    requires Room(memory, args, sp) && i < |args| && a < |memory|
    ensures
      var m, base, n := LaidOut(memory, args, sp), Base(args, sp), |args|;
      var below := sp - Sum(Lengths(args, n));
      && base + 4 * n + 4 <= |m| && base % 4 == 0 && below - 4 < base + 4 * n + 4 <= below
      && Load(m, base + 4 * i, 4) == sp - Sum(Lengths(args, i + 1)) && Load(m, base + 4 * n, 4) == 0
      && (a < base || sp <= a ==> m[a] == memory[a])
  {
    hide LaidOut, Load, Lengths, Sum;
    BaseFacts(args, sp);
    TopIs(args, sp, i + 1);
    TopIs(args, sp, |args|);
    LaidOutPointer(memory, args, sp, i);
    LaidOutNull(memory, args, sp);
    if a < Base(args, sp) || sp <= a {
      LaidOutOutside(memory, args, sp, a);
    }
  }

  lemma LaidOutOutside(memory: seq<byte>, args: seq<seq<byte>>, sp: int, a: nat)
    requires Room(memory, args, sp) && a < |memory| && (a < Base(args, sp) || sp <= a)
    ensures LaidOut(memory, args, sp)[a] == memory[a]
  {
    BaseFacts(args, sp);
    PointersOutside(memory, args, sp, |args|, a);
    if a < sp {
      StringsBelow(memory, args, sp, |args|, a);
    } else {
      StringsOutside(memory, args, sp, |args|, a);
    }
  }

  /** The strings do not overlap each other, the bytes behind them, or `argv`. */
  lemma StringsAreDisjoint(args: seq<seq<byte>>, sp: int, i: nat, j: nat)
    requires i < j < |args|
    ensures Base(args, sp) + 4 * |args| + 4 <= Top(args, sp, j + 1)
    ensures Top(args, sp, j + 1) + |args[j]| < Top(args, sp, i + 1)
  {
    TopDescends(args, sp, i + 1, j);
    TopDescends(args, sp, j + 1, |args|);
  }
}

/** `WriteArgs` and `SaveArgs` over the paged machine. */
module Args {
  import opened FlatMemory
  import opened FlatMachine
  import opened Vm
  import opened PagingInvariant
  import opened Kernels
  import opened UserRuns
  import opened Transfer
  import opened ArgLayout

  /** One `WriteMem` of the argument code, retried after a fault. */
  method WriteWord(k: Kernel, addr: nat, value: int, ghost f: Flat, ghost memory: seq<byte>) returns (foreign: bool)
    requires UserIs(k, f, memory) && addr % 4 == 0 && addr + 4 <= |memory|
    modifies k.Repr()
    ensures k.Valid()
    ensures foreign ==> Crowded(k.S())
    ensures !foreign ==> UserIs(k, f, Store(memory, addr, 4, value))
  {
    var i;
    foreign, i := TryWrite(k, addr, 4, value);
    assert FlatOf(k.S()).memories[k.cur] == User(k);
  }

  method WriteText(k: Kernel, text: seq<byte>, addr: nat, ghost f: Flat, ghost memory: seq<byte>)
    returns (foreign: bool)
    requires UserIs(k, f, memory) && text != [] && 0 !in text && addr + |text| <= |memory|
    modifies k.Repr()
    ensures k.Valid()
    ensures foreign ==> Crowded(k.S())
    ensures !foreign ==> UserIs(k, f, Splice(memory, addr, text))
  {
    foreign := WriteStringToUser(k, text, addr);
    assert FlatOf(k.S()).memories[k.cur] == User(k);
  }

  /** String `c` goes right below the previous one, with one byte between. */
  method WriteOneString(k: Kernel, args: seq<seq<byte>>, stack: nat, c: nat, sp: int, ghost f: Flat,
                        ghost memory: seq<byte>)
    returns (foreign: bool)
    requires ArgsOk(args) && Room(memory, args, stack) && c < |args| && sp == Top(args, stack, c + 1) && 0 <= sp
    requires UserIs(k, f, WithStrings(memory, args, stack, c))
    modifies k.Repr()
    ensures k.Valid()
    ensures foreign ==> Crowded(k.S())
    ensures !foreign ==> UserIs(k, f, WithStrings(memory, args, stack, c + 1))
  {
    Extent(memory, args, stack, c);
    foreign := WriteText(k, args[c], sp, f, WithStrings(memory, args, stack, c));
  }

  lemma NoStrings(memory: seq<byte>, args: seq<seq<byte>>, stack: nat)
    requires Room(memory, args, stack)
    ensures WithStrings(memory, args, stack, 0) == memory
  {
  }

  /** The loop over the strings; returns the address of each. */
  method WriteStrings(k: Kernel, args: seq<seq<byte>>, stack: nat, ghost f: Flat, ghost memory: seq<byte>)
    returns (foreign: bool, sp: int, argsAddress: seq<int>)
    requires UserIs(k, f, memory) && ArgsOk(args) && Room(memory, args, stack)
    modifies k.Repr()
    ensures k.Valid()
    ensures foreign ==> Crowded(k.S())
    ensures !foreign ==> sp == Top(args, stack, |args|) && 0 <= sp && argsAddress == Tops(args, stack)
    ensures !foreign ==> UserIs(k, f, WithStrings(memory, args, stack, |args|))
  {
    hide InvBut, Crowded, FlatOf, User, WithStrings, ArgsOk;
    NoStrings(memory, args, stack);
    foreign, sp, argsAddress := false, stack, [];
    var c := 0;
    while c < |args|
      invariant 0 <= c <= |args| && sp == Top(args, stack, c) && 0 <= sp && !foreign
      invariant argsAddress == Tops(args, stack)[..c]
      invariant UserIs(k, f, WithStrings(memory, args, stack, c))
    {
      Extent(memory, args, stack, c);
      sp := sp - (|args[c]| + 1);
      foreign := WriteOneString(k, args, stack, c, sp, f, memory);
      if foreign {
        return;
      }
      argsAddress := argsAddress + [sp];
      c := c + 1;
    }
  }

  method WriteOnePointer(k: Kernel, args: seq<seq<byte>>, stack: nat, i: nat, ghost f: Flat, ghost memory: seq<byte>,
                         pointer: int)
    returns (foreign: bool)
    requires ArgsOk(args) && Room(memory, args, stack) && i < |args| && pointer == Top(args, stack, i + 1)
    requires UserIs(k, f, WithPointers(memory, args, stack, i))
    modifies k.Repr()
    ensures k.Valid()
    ensures foreign ==> Crowded(k.S())
    ensures !foreign ==> UserIs(k, f, WithPointers(memory, args, stack, i + 1))
  {
    BaseFacts(args, stack);
    hide Base, Top, WithStrings, FlatOf, User, Store;
    foreign := WriteWord(k, Base(args, stack) + 4 * i, pointer, f, WithPointers(memory, args, stack, i));
  }

  /** The loop over the pointers, and the null behind them. */
  method WritePointers(k: Kernel, args: seq<seq<byte>>, stack: nat, argsAddress: seq<int>,
                       ghost f: Flat, ghost memory: seq<byte>)
    returns (foreign: bool)
    requires ArgsOk(args) && Room(memory, args, stack) && argsAddress == Tops(args, stack)
    requires UserIs(k, f, WithPointers(memory, args, stack, 0))
    modifies k.Repr()
    ensures k.Valid()
    ensures foreign ==> Crowded(k.S())
    ensures !foreign ==> UserIs(k, f, LaidOut(memory, args, stack))
  {
    hide WithPointers, LaidOut, Top, Base, FlatOf, User;
    var i := 0;
    while i < |args|
      invariant 0 <= i <= |args| && UserIs(k, f, WithPointers(memory, args, stack, i))
    {
      foreign := WriteOnePointer(k, args, stack, i, f, memory, argsAddress[i]);
      if foreign {
        return;
      }
      i := i + 1;
    }
    foreign := WriteNull(k, args, stack, f, memory);
  }

  method WriteNull(k: Kernel, args: seq<seq<byte>>, stack: nat, ghost f: Flat, ghost memory: seq<byte>)
    returns (foreign: bool)
    requires ArgsOk(args) && Room(memory, args, stack) && UserIs(k, f, WithPointers(memory, args, stack, |args|))
    modifies k.Repr()
    ensures k.Valid()
    ensures foreign ==> Crowded(k.S())
    ensures !foreign ==> UserIs(k, f, LaidOut(memory, args, stack))
  {
    BaseFacts(args, stack);
    foreign := WriteWord(k, Base(args, stack) + 4 * |args|, 0, f, WithPointers(memory, args, stack, |args|));
  }

  /** Lays the arguments out below `stack`; the new stack pointer is where `argv` starts. */
  method WriteArgs(k: Kernel, args: seq<seq<byte>>, stack: nat)
    returns (foreign: bool, c: nat, sp: int)
    requires k.Valid() && ArgsOk(args) && Room(User(k), args, stack)
    modifies k.Repr()
    ensures k.Valid()
    ensures foreign ==> Crowded(k.S())
    ensures !foreign ==>
      && c == |args| && sp == Base(args, stack)
      && FlatOf(k.S()) == WithUser(old(FlatOf(k.S())), LaidOut(old(User(k)), args, stack))
      && User(k) == LaidOut(old(User(k)), args, stack)
  {
    ghost var f, memory := FlatOf(k.S()), User(k);
    assert WithUser(f, memory) == f;
    c := |args|;
    var argsAddress;
    foreign, sp, argsAddress := WriteStrings(k, args, stack, f, memory);
    if foreign {
      return;
    }
    sp := sp - sp % 4;
    sp := sp - (c * 4 + 4);
    foreign := WritePointers(k, args, stack, argsAddress, f, memory);
  }

  method ReadWord(k: Kernel, at: nat, ghost f: Flat, ghost memory: seq<byte>) returns (foreign: bool, word: int)
    requires Shows(k, f, memory) && at % 4 == 0 && at + 4 <= |memory|
    modifies k.Repr()
    ensures Shows(k, f, memory)
    ensures foreign ==> Crowded(k.S())
    ensures !foreign ==> word == Load(memory, at, 4)
  {
    var tries;
    foreign, tries, word := TryRead(k, at, 4);
  }

  /** The word the counting loop reads next: a pointer before the end, the null at the end. */
  lemma NextWord(memory: seq<byte>, base: nat, n: nat, c: nat)
    requires Pointers(memory, base, n) && c <= n && c < MAX_ARG_COUNT
    ensures (base + 4 * c) % 4 == 0 && base + 4 * c + 4 <= |memory|
    ensures Load(memory, base + 4 * c, 4) == 0 <==> c == n
  {
    assert c < n ==> PointerAt(memory, base, c);
  }

  /** Counts the pointers of an `argv` up to its null; fails beyond the limit. */
  method CountArgsToSave(k: Kernel, address: nat, ghost n: nat, ghost f: Flat, ghost memory: seq<byte>)
    returns (foreign: bool, ok: bool, count: nat)
    requires Shows(k, f, memory) && Pointers(memory, address, n)
    modifies k.Repr()
    ensures Shows(k, f, memory)
    ensures foreign ==> Crowded(k.S())
    ensures !foreign ==> ok == (n < MAX_ARG_COUNT) && (ok ==> count == n)
  {
    hide Pointers, FlatOf, User, Crowded, Load;
    var c, val := 0, 1;
    foreign, ok, count := false, false, 0;
    while c < MAX_ARG_COUNT && val != 0
      invariant 0 <= c <= n + 1 && c <= MAX_ARG_COUNT && Shows(k, f, memory)
      invariant val == 0 <==> c == n + 1
      decreases MAX_ARG_COUNT - c
    {
      NextWord(memory, address, n, c);
      foreign, val := ReadWord(k, address + 4 * c, f, memory);
      if foreign {
        return;
      }
      c := c + 1;
    }
    if c == MAX_ARG_COUNT && val != 0 {
      return;
    }
    ok, count := true, c - 1;
  }

  method SaveText(k: Kernel, strAddr: int, ghost text: seq<byte>, ghost f: Flat, ghost memory: seq<byte>)
    returns (foreign: bool, read: seq<byte>)
    requires Shows(k, f, memory) && StringAt(memory, strAddr, text)
    modifies k.Repr()
    ensures Shows(k, f, memory)
    ensures foreign ==> Crowded(k.S())
    ensures !foreign ==> read == Cut(text)
  {
    StringCut(memory, strAddr, text);
    OneStrLen(memory, strAddr, |text|);
    var ok;
    foreign, ok, read := ReadStringFromUser(k, strAddr, MAX_ARG_LENGTH);
  }

  lemma SavedAt(args: seq<seq<byte>>, i: nat)
    requires i < |args|
    ensures Saved(args)[i] == Cut(args[i])
  {
  }

  /** The string that pointer `i` leads to. */
  method SaveOne(k: Kernel, address: nat, i: nat, ghost args: seq<seq<byte>>, ghost f: Flat, ghost memory: seq<byte>)
    returns (foreign: bool, read: seq<byte>)
    requires Shows(k, f, memory) && Holds(memory, address, args) && i < |args| < MAX_ARG_COUNT
    modifies k.Repr()
    ensures Shows(k, f, memory)
    ensures foreign ==> Crowded(k.S())
    ensures !foreign ==> read == Saved(args)[i]
  {
    hide *;
    HoldsAt(memory, address, args, i);
    SavedAt(args, i);
    var strAddr;
    read := [];
    foreign, strAddr := ReadWord(k, address + 4 * i, f, memory);
    if !foreign {
      foreign, read := SaveText(k, strAddr, args[i], f, memory);
    }
  }

  /** Reads the arguments at `address`; fails exactly if there are too many. */
  method SaveArgs(k: Kernel, address: nat, ghost args: seq<seq<byte>>, ghost f: Flat, ghost memory: seq<byte>)
    returns (foreign: bool, ok: bool, saved: seq<seq<byte>>)
    requires Shows(k, f, memory) && Holds(memory, address, args)
    modifies k.Repr()
    ensures Shows(k, f, memory)
    ensures foreign ==> Crowded(k.S())
    ensures !foreign ==> (ok <==> |args| < MAX_ARG_COUNT) && (ok ==> saved == Saved(args))
  {
    hide FlatOf, User, ArgAt, Pointers;
    var count;
    saved := [];
    foreign, ok, count := CountArgsToSave(k, address, |args|, f, memory);
    if foreign || !ok {
      return;
    }
    var i := 0;
    while i < count
      invariant 0 <= i <= count == |args| && Shows(k, f, memory) && !foreign
      invariant saved == Saved(args)[..i]
    {
      var text;
      foreign, text := SaveOne(k, address, i, args, f, memory);
      if foreign {
        return;
      }
      saved := saved + [text];
      i := i + 1;
    }
  }

  /** What one process writes for its child, the child's own `Exec` reads back unchanged. */
  method RoundTrip(k: Kernel, args: seq<seq<byte>>, stack: nat)
    returns (foreign: bool, ok: bool, saved: seq<seq<byte>>)
    requires k.Valid() && ArgsOk(args) && Room(User(k), args, stack) && ZeroStack(User(k), args, stack)
    modifies k.Repr()
    ensures k.Valid()
    ensures foreign ==> Crowded(k.S())
    ensures !foreign ==> ok && saved == Saved(args)
    ensures !foreign && (forall i :: 0 <= i < |args| ==> |args[i]| < MAX_ARG_LENGTH) ==> saved == WithNuls(args)
  {
    LaidOutHolds(User(k), args, stack);
    var c, sp;
    ok, saved := false, [];
    foreign, c, sp := WriteArgs(k, args, stack);
    if !foreign {
      foreign, ok, saved := SaveArgs(k, sp, args, FlatOf(k.S()), User(k));
    }
  }
}
