/**
 Copies between kernel buffers and user memory.  A byte access that faults is
 tried again; the copies are exact and the limit on tries is never reached.
 */
module Transfer {
  import opened Numbers
  import opened FlatMemory
  import opened FlatMachine
  import opened Vm
  import opened PagingInvariant
  import opened Kernels
  import opened UserRuns

  const PASADAS_DE_LECTURA := 5

  /** The flat memory of the running program. */
  ghost function User(k: Kernel): seq<byte>
    requires k.Valid()
    reads k.Repr()
  {
    View(k.S(), k.cur)
  }

  ghost function Memories(k: Kernel): Flat
    requires k.Valid()
    reads k.Repr()
  {
    FlatOf(k.S())
  }

  /** All memories are `f`, the running program's is `memory`. */
  ghost predicate Shows(k: Kernel, f: Flat, memory: seq<byte>)
    reads k.Repr()
  {
    k.Valid() && FlatOf(k.S()) == f && User(k) == memory
  }

  /** All memories, with the running program's replaced. */
  ghost function WithUser(f: Flat, memory: seq<byte>): Flat
    requires f.cur < |f.memories|
  {
    f.(memories := f.memories[f.cur := memory])
  }

  /** The running program's memory is `memory`; no other memory has changed since `f`. */
  ghost predicate UserIs(k: Kernel, f: Flat, memory: seq<byte>)
    reads k.Repr()
  {
    && k.Valid() && f.cur < |f.memories|
    && FlatOf(k.S()) == WithUser(f, memory) && User(k) == memory
  }

  /** `page` is in the TLB, so an access to it succeeds. */
  ghost predicate Cached(k: Kernel, addr: nat)
    requires k.Valid()
    reads k.Repr()
  {
    TlbFind(k.tlb[..], addr / PAGE_SIZE) < TLB_SIZE
  }

  /** `Machine::ReadMem`, told in terms of flat memories. */
  method ReadOnce(k: Kernel, addr: nat, size: nat) returns (ok: bool, value: int, foreign: bool)
    requires k.Valid() && AccessSize(size) && (Aligned(addr, size) ==> addr + size <= |User(k)|)
    modifies k.Repr()
    ensures k.Valid() && FlatOf(k.S()) == old(FlatOf(k.S())) && User(k) == old(User(k))
    ensures foreign ==> Crowded(k.S())
    ensures ok <==> Aligned(addr, size) && old(Cached(k, addr))
    ensures ok ==> !foreign && value == Load(User(k), addr, size)
    ensures ok ==> SameTags(old(k.tlb[..]), k.tlb[..]) && k.index == old(k.index) && SameShelf(old(k.S()), k.S())
    ensures Aligned(addr, size) && !ok && Roomy(old(k.S()), addr / PAGE_SIZE) ==>
      !foreign && Brought(old(k.S()), k.S(), addr / PAGE_SIZE)
    ensures !k.policy.Random? && Aligned(addr, size) && !ok && !foreign ==> Shifted(old(k.S()), k.S(), addr / PAGE_SIZE)
    ensures Aligned(addr, size) && !ok && !foreign ==> Cached(k, addr)
    ensures !Aligned(addr, size) ==> !foreign
  {
    ghost var s := k.S();
    ok, value, foreign := k.ReadMem(addr, size);
    SameViewsSameFlat(s, k.S());
    SameViewsMeansSameMemory(s, k.S());
  }

  /** `Machine::WriteMem`, told in terms of flat memories. */
  method WriteOnce(k: Kernel, addr: nat, size: nat, value: int) returns (ok: bool, foreign: bool)
    requires k.Valid() && AccessSize(size) && (Aligned(addr, size) ==> addr + size <= |User(k)|)
    modifies k.Repr()
    ensures k.Valid()
    ensures foreign ==> Crowded(k.S())
    ensures ok <==> Aligned(addr, size) && old(Cached(k, addr))
    ensures !ok ==> FlatOf(k.S()) == old(FlatOf(k.S())) && User(k) == old(User(k))
    ensures Aligned(addr, size) && !ok && !foreign ==> Cached(k, addr)
    ensures !Aligned(addr, size) ==> !foreign
    ensures ok ==> !foreign
    ensures ok ==> FlatOf(k.S()) == WithUser(old(FlatOf(k.S())), Store(old(User(k)), addr, size, value))
    ensures ok ==> User(k) == Store(old(User(k)), addr, size, value)
    ensures Aligned(addr, size) && !ok && Roomy(old(k.S()), addr / PAGE_SIZE) ==>
      !foreign && Brought(old(k.S()), k.S(), addr / PAGE_SIZE)
    ensures !k.policy.Random? && Aligned(addr, size) && !ok && !foreign ==> Shifted(old(k.S()), k.S(), addr / PAGE_SIZE)
  {
    ghost var s := k.S();
    ok, foreign := k.WriteMem(addr, size, value);
    if ok {
      assert FlatOf(k.S()).memories == WithUser(FlatOf(s), Store(View(s, s.cur), addr, size, value)).memories;
    } else {
      SameViewsSameFlat(s, k.S());
      SameViewsMeansSameMemory(s, k.S());
    }
  }

  /** Reads at `addr`, at most PASADAS_DE_LECTURA times; `i` counts the failures. */
  method TryRead(k: Kernel, addr: nat, size: nat) returns (foreign: bool, i: nat, value: int)
    requires k.Valid() && AccessSize(size) && Aligned(addr, size) && addr + size <= |User(k)|
    modifies k.Repr()
    ensures k.Valid() && FlatOf(k.S()) == old(FlatOf(k.S())) && User(k) == old(User(k))
    ensures foreign ==> Crowded(k.S())
    ensures !foreign ==> i <= 1 && value == Load(User(k), addr, size)
  {
    hide FlatOf, PteOk, CleanOk, SlotOk, FrameOk, Load, Crowded;
    var ok;
    i := 0;
    ok, value, foreign := ReadOnce(k, addr, size);
    while i < PASADAS_DE_LECTURA && !ok && !foreign
      invariant i <= 1 && k.Valid() && FlatOf(k.S()) == old(FlatOf(k.S())) && User(k) == old(User(k))
      invariant !ok && !foreign ==> i == 0 && Cached(k, addr)
      invariant ok ==> !foreign && value == Load(User(k), addr, size)
      invariant foreign ==> Crowded(k.S())
      decreases PASADAS_DE_LECTURA - i
    {
      i := i + 1;
      ok, value, foreign := ReadOnce(k, addr, size);
    }
  }

  /** Writes at `addr`, at most PASADAS_DE_LECTURA times. */
  method TryWrite(k: Kernel, addr: nat, size: nat, value: int) returns (foreign: bool, i: nat)
    requires k.Valid() && AccessSize(size) && Aligned(addr, size) && addr + size <= |User(k)|
    modifies k.Repr()
    ensures k.Valid()
    ensures foreign ==> Crowded(k.S())
    ensures foreign ==> FlatOf(k.S()) == old(FlatOf(k.S()))
    ensures !foreign ==> i <= 1
    ensures !foreign ==> FlatOf(k.S()) == WithUser(old(FlatOf(k.S())), Store(old(User(k)), addr, size, value))
  {
    hide PteOk, CleanOk, SlotOk, FrameOk, Store, Crowded;
    ghost var target := WithUser(FlatOf(k.S()), Store(User(k), addr, size, value));
    var ok;
    i := 0;
    ok, foreign := WriteOnce(k, addr, size, value);
    while i < PASADAS_DE_LECTURA && !ok && !foreign
      invariant i <= 1 && k.Valid()
      invariant !ok ==> FlatOf(k.S()) == old(FlatOf(k.S())) && User(k) == old(User(k))
      invariant !ok && !foreign ==> i == 0 && Cached(k, addr)
      invariant ok ==> !foreign && FlatOf(k.S()) == target
      invariant foreign ==> Crowded(k.S())
      decreases PASADAS_DE_LECTURA - i
    {
      i := i + 1;
      ok, foreign := WriteOnce(k, addr, size, value);
    }
  }

  /** A one-byte load, cast back to `unsigned char`, is the byte. */
  lemma ByteLoad(memory: seq<byte>, a: nat)
    requires a < |memory|
    ensures Load(memory, a, 1) % 256 == memory[a]
  {
    assert memory[a..a + 1] == [memory[a]];
    assert [memory[a]][1..] == [];
    assert Unsigned([memory[a]]) == memory[a];
  }

  lemma ByteStore(memory: seq<byte>, a: nat, b: byte)
    requires a < |memory|
    ensures Store(memory, a, 1, b) == Splice(memory, a, [b])
  {
    assert Bytes(b, 1) == [b];
  }

  /** One byte of a copy from the user; the assertion on the number of tries holds. */
  method ReadByte(k: Kernel, addr: nat) returns (foreign: bool, b: byte)
    requires k.Valid() && addr < |User(k)|
    modifies k.Repr()
    ensures k.Valid() && FlatOf(k.S()) == old(FlatOf(k.S())) && User(k) == old(User(k))
    ensures foreign ==> Crowded(k.S())
    ensures !foreign ==> b == User(k)[addr]
  {
    var i, temp;
    b := 0;
    foreign, i, temp := TryRead(k, addr, 1);
    if !foreign {
      assert i < PASADAS_DE_LECTURA;
      ByteLoad(User(k), addr);
      b := temp % 256;
    }
  }

  /** One byte of a copy to the user. */
  method WriteByte(k: Kernel, addr: nat, b: byte) returns (foreign: bool)
    requires k.Valid() && addr < |User(k)|
    modifies k.Repr()
    ensures k.Valid()
    ensures foreign ==> Crowded(k.S())
    ensures !foreign ==> FlatOf(k.S()) == WithUser(old(FlatOf(k.S())), Splice(old(User(k)), addr, [b]))
  {
    ByteStore(User(k), addr, b);
    var i;
    foreign, i := TryWrite(k, addr, 1, b);
    assert !foreign ==> i < PASADAS_DE_LECTURA;
  }

  lemma SliceNext(memory: seq<byte>, a: nat, n: nat)
    requires a + n < |memory|
    ensures memory[a..a + n] + [memory[a + n]] == memory[a..a + n + 1]
  {
  }

  /** The buffer is filled byte by byte, front to back. */
  method ReadBufferFromUser(k: Kernel, userAddress: nat, byteCount: nat)
    returns (foreign: bool, outBuffer: seq<byte>)
    requires k.Valid() && byteCount != 0 && userAddress + byteCount <= |User(k)|
    modifies k.Repr()
    ensures k.Valid() && FlatOf(k.S()) == old(FlatOf(k.S())) && User(k) == old(User(k))
    ensures foreign ==> Crowded(k.S())
    ensures !foreign ==> outBuffer == User(k)[userAddress..userAddress + byteCount]
  {
    hide FlatOf, PteOk, CleanOk, SlotOk, FrameOk, Crowded;
    ghost var f, memory := FlatOf(k.S()), User(k);
    var count := 0;
    foreign, outBuffer := false, [];
    while count < byteCount
      invariant 0 <= count <= byteCount && k.Valid() && FlatOf(k.S()) == f && User(k) == memory
      invariant outBuffer == memory[userAddress..userAddress + count]
    {
      var b;
      foreign, b := ReadByte(k, userAddress + count);
      if foreign {
        return;
      }
      SliceNext(memory, userAddress, count);
      outBuffer := outBuffer + [b];
      count := count + 1;
    }
  }

  /** `n` bytes from `a` on precede the first NUL, or the end of memory. */
  ghost predicate IsStrLen(memory: seq<byte>, a: nat, n: nat) {
    && a + n <= |memory|
    && (forall j :: a <= j < a + n ==> memory[j] != 0)
    && (a + n < |memory| ==> memory[a + n] == 0)
  }

  /** That length. */
  ghost function StrLen(memory: seq<byte>, a: nat): (n: nat)
    requires a <= |memory|
    ensures IsStrLen(memory, a, n)
    decreases |memory| - a
  {
    if a == |memory| || memory[a] == 0 then 0 else 1 + StrLen(memory, a + 1)
  }

  lemma OneStrLen(memory: seq<byte>, a: nat, n: nat)
    requires IsStrLen(memory, a, n)
    ensures StrLen(memory, a) == n
  {
  }

  /** The next byte of a string is its NUL exactly at its length. */
  lemma NulOrNot(memory: seq<byte>, a: nat, n: nat, c: nat)
    requires IsStrLen(memory, a, n) && c <= n && a + c < |memory|
    ensures memory[a + c] == 0 <==> c == n
  {
  }

  /** The first `count` bytes of a string of length `n` are in `out`, with the NUL if `ok`. */
  ghost predicate Copied(memory: seq<byte>, a: nat, n: nat, count: nat, ok: bool, out: seq<byte>) {
    && IsStrLen(memory, a, n) && a + count <= |memory| && out == memory[a..a + count]
    && count <= n + 1 && (ok <==> count == n + 1)
  }

  lemma CopyNext(memory: seq<byte>, a: nat, n: nat, count: nat, out: seq<byte>)
    requires Copied(memory, a, n, count, false, out) && a + count < |memory|
    ensures Copied(memory, a, n, count + 1, memory[a + count] == 0, out + [memory[a + count]])
  {
    NulOrNot(memory, a, n, count);
    SliceNext(memory, a, count);
  }

  /** Copies up to and including the NUL, or `maxByteCount` bytes; true if the NUL was copied. */
  method ReadStringFromUser(k: Kernel, userAddress: nat, maxByteCount: nat)
    returns (foreign: bool, ok: bool, outString: seq<byte>)
    requires k.Valid() && maxByteCount != 0 && userAddress <= |User(k)|
    requires userAddress + Min(StrLen(User(k), userAddress) + 1, maxByteCount) <= |User(k)|
    modifies k.Repr()
    ensures k.Valid() && FlatOf(k.S()) == old(FlatOf(k.S())) && User(k) == old(User(k))
    ensures foreign ==> Crowded(k.S())
    ensures
      var n := StrLen(old(User(k)), userAddress);
      !foreign ==>
        && outString == User(k)[userAddress..userAddress + Min(n + 1, maxByteCount)]
        && ok == (n < maxByteCount)
  {
    hide FlatOf, InvBut, Crowded, StrLen, User, IsStrLen;
    ghost var f, memory := Memories(k), User(k);
    ghost var n := StrLen(memory, userAddress);
    var count := 0;
    foreign, ok, outString := false, false, [];
    while count < maxByteCount && !ok
      invariant 0 <= count <= maxByteCount && Shows(k, f, memory) && !foreign
      invariant Copied(memory, userAddress, n, count, ok, outString)
      decreases maxByteCount - count
    {
      var b;
      foreign, b := ReadByte(k, userAddress + count);
      if foreign {
        return;
      }
      CopyNext(memory, userAddress, n, count, outString);
      outString := outString + [b];
      ok := b == 0;
      count := count + 1;
    }
  }

  lemma SpliceNone(memory: seq<byte>, a: nat, data: seq<byte>)
    requires a <= |memory|
    ensures Splice(memory, a, data[..0]) == memory
  {
  }

  lemma SpliceNext(memory: seq<byte>, a: nat, data: seq<byte>, n: nat)
    requires a + |data| <= |memory| && n < |data|
    ensures Splice(Splice(memory, a, data[..n]), a + n, [data[n]]) == Splice(memory, a, data[..n + 1])
  {
  }

  method WriteBufferToUser(k: Kernel, buffer: seq<byte>, userAddress: nat)
    returns (foreign: bool)
    requires k.Valid() && buffer != [] && userAddress + |buffer| <= |User(k)|
    modifies k.Repr()
    ensures k.Valid()
    ensures foreign ==> Crowded(k.S())
    ensures !foreign ==>
      FlatOf(k.S()) == WithUser(old(FlatOf(k.S())), Splice(old(User(k)), userAddress, buffer))
  {
    hide PteOk, CleanOk, SlotOk, FrameOk, Crowded, Splice;
    ghost var f, memory := FlatOf(k.S()), User(k);
    var count := 0;
    foreign := false;
    SpliceNone(memory, userAddress, buffer);
    while count < |buffer|
      invariant 0 <= count <= |buffer| && k.Valid()
      invariant FlatOf(k.S()) == WithUser(f, Splice(memory, userAddress, buffer[..count]))
      invariant User(k) == Splice(memory, userAddress, buffer[..count])
    {
      foreign := WriteByte(k, userAddress + count, buffer[count]);
      if foreign {
        return;
      }
      SpliceNext(memory, userAddress, buffer, count);
      assert FlatOf(k.S()).memories[k.cur] == User(k);
      count := count + 1;
    }
    assert buffer[..count] == buffer;
  }

  /** The terminating NUL is not written; an empty string would be read past its end. */
  method WriteStringToUser(k: Kernel, text: seq<byte>, userAddress: nat)
    returns (foreign: bool)
    requires k.Valid() && text != [] && 0 !in text && userAddress + |text| <= |User(k)|
    modifies k.Repr()
    ensures k.Valid()
    ensures foreign ==> Crowded(k.S())
    ensures !foreign ==>
      FlatOf(k.S()) == WithUser(old(FlatOf(k.S())), Splice(old(User(k)), userAddress, text))
  {
    foreign := WriteBufferToUser(k, text, userAddress);
  }
}
