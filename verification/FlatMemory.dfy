/**
 A flat, byte-addressed user memory and the little-endian values stored in it.
 This is what a user program is entitled to see; the paging modules are proved
 to look like it.
 */
module FlatMemory {
  import opened Numbers

  type byte = x: int | 0 <= x < 256

  const PAGE_SIZE := 128

  /** The access sizes the MMU supports. */
  predicate AccessSize(size: nat) {
    size == 1 || size == 2 || size == 4
  }

  /** The alignment test of the MMU: words on 4, half words on 2. */
  predicate Aligned(addr: nat, size: nat) {
    (size == 4 ==> addr % 4 == 0) && (size == 2 ==> addr % 2 == 0)
  }

  /** An aligned access does not straddle two pages. */
  lemma WithinPage(addr: nat, size: nat)
    requires AccessSize(size) && Aligned(addr, size)
    ensures addr % PAGE_SIZE + size <= PAGE_SIZE
    ensures addr == addr / PAGE_SIZE * PAGE_SIZE + addr % PAGE_SIZE
  {
    var q, r := addr / PAGE_SIZE, addr % PAGE_SIZE;
    if size == 4 {
      AlignedRest(q, r, 4, 32);
    } else if size == 2 {
      AlignedRest(q, r, 2, 64);
    }
  }

  /** If a multiple of `d * n` and `r` add up to a multiple of `d`, so is `r`. */
  lemma AlignedRest(q: nat, r: nat, d: nat, n: nat)
    requires d > 0 && r < d * n && (d * n * q + r) % d == 0
    ensures r % d == 0 && r + d <= d * n
  {
    var k := (d * n * q + r) / d;
    var m := k - n * q;
    assert r == d * m by {
      assert d * n * q == d * (n * q);
      assert d * (k - n * q) == d * k - d * (n * q);
    }
    ModulusIsUnique(r, d, m, 0);
    MultipleIsFar(d, m - n);
    assert d * m == d * n + d * (m - n);
    MultipleIsFar(d, n - m);
    assert d * n == d * m + d * (n - m);
  }

  /** The unsigned number a little-endian byte string denotes. */
  function Unsigned(bytes: seq<byte>): nat {
    if bytes == [] then 0 else bytes[0] + 256 * Unsigned(bytes[1..])
  }

  /** Byte `i` of `x` in two's complement, counted from the least significant. */
  function Digit(x: int, i: nat): byte
    decreases i
  {
    if i == 0 then x % 256 else Digit(x / 256, i - 1)
  }

  /** The `n` low bytes of `x`, least significant first. */
  function Bytes(x: int, n: nat): (bytes: seq<byte>)
    ensures |bytes| == n
  {
    seq<byte>(n, i requires 0 <= i < n => Digit(x, i))
  }

  function Pow256(n: nat): (p: nat)
    ensures p >= 1
  {
    if n == 0 then 1 else 256 * Pow256(n - 1)
  }

  /** What the MMU hands back: `char` is signed, `unsigned short` is not, a word is an `int`. */
  function Extend(u: nat, size: nat): int {
    if size == 1 then (if u < 0x80 then u else u - 0x100)
    else if size == 4 then (if u < 0x8000_0000 then u else u - 0x1_0000_0000)
    else u
  }

  function Load(memory: seq<byte>, addr: nat, size: nat): int
    requires addr + size <= |memory|
  {
    Extend(Unsigned(memory[addr..addr + size]), size)
  }

  /** `data` laid over `memory` from `addr` on. */
  function Splice(memory: seq<byte>, addr: nat, data: seq<byte>): (m: seq<byte>)
    requires addr + |data| <= |memory|
    ensures |m| == |memory|
    ensures m[addr..addr + |data|] == data
    ensures forall k {:trigger m[k]} :: 0 <= k < |m| && !(addr <= k < addr + |data|) ==> m[k] == memory[k]
  {
    memory[..addr] + data + memory[addr + |data|..]
  }

  function Store(memory: seq<byte>, addr: nat, size: nat, value: int): (m: seq<byte>)
    requires addr + size <= |memory|
    ensures |m| == |memory|
  {
    Splice(memory, addr, Bytes(value, size))
  }

  lemma {:induction false} UnsignedOfBytes(x: int, n: nat)
    ensures Unsigned(Bytes(x, n)) == x % Pow256(n)
    decreases n
  {
    if n > 0 {
      UnsignedOfBytes(x / 256, n - 1);
      assert Bytes(x, n)[1..] == Bytes(x / 256, n - 1);
      SplitModulus(x, Pow256(n - 1));
    }
  }

  lemma SplitModulus(x: int, p: nat)
    requires p >= 1
    ensures x % 256 + 256 * ((x / 256) % p) == x % (256 * p)
  {
    var q := x / 256;
    var r := x % 256 + 256 * (q % p);
    assert x == 256 * p * (q / p) + r by {
      assert q == p * (q / p) + q % p;
      assert 256 * q == 256 * (p * (q / p)) + 256 * (q % p);
      assert 256 * (p * (q / p)) == 256 * p * (q / p);
    }
    assert 0 <= r < 256 * p;
    ModulusIsUnique(x, 256 * p, q / p, r);
  }

  lemma {:induction false} DigitIs(x: int, i: nat)
    ensures Digit(x, i) == x / Pow256(i) % 256
    decreases i
  {
    if i > 0 {
      DigitIs(x / 256, i - 1);
      DivideTwice(x, 256, Pow256(i - 1));
    }
  }

  lemma Powers()
    ensures Pow256(0) == 1 && Pow256(1) == 0x100 && Pow256(2) == 0x1_0000 && Pow256(3) == 0x100_0000
    ensures Pow256(4) == 0x1_0000_0000
  {
    assert Pow256(2) == 0x1_0000;
    assert Pow256(3) == 256 * Pow256(2);
    assert Pow256(4) == 256 * Pow256(3);
  }

  /** The bytes of a stored value lie in memory from the least significant one on. */
  lemma StoredByte(memory: seq<byte>, addr: nat, size: nat, value: int, k: nat)
    requires addr + size <= |memory| && k < size
    ensures Store(memory, addr, size, value)[addr + k] == value / Pow256(k) % 256
  {
    DigitIs(value, k);
    var m := Store(memory, addr, size, value);
    assert m[addr..addr + size][k] == m[addr + k];
  }

  /** Byte strings as numbers, low byte first. */
  lemma UnsignedIs(b: seq<byte>)
    ensures
      var d: seq<int> := b;
      && (|b| == 1 ==> Unsigned(b) == d[0])
      && (|b| == 2 ==> Unsigned(b) == d[0] + 0x100 * d[1])
      && (|b| == 4 ==> Unsigned(b) == d[0] + 0x100 * d[1] + 0x1_0000 * d[2] + 0x100_0000 * d[3])
  {
    if |b| == 1 {
      assert b[1..] == [];
    } else if |b| == 2 {
      UnsignedIs(b[1..]);
    } else if |b| == 4 {
      UnsignedIs(b[2..]);
      assert b[1..][1..] == b[2..];
      assert Unsigned(b[1..]) == b[1] as int + 0x100 * Unsigned(b[2..]);
    }
  }

  /** What a load returns, byte by byte: a signed byte, an unsigned half word, a signed word, low byte first. */
  lemma LoadedValue(memory: seq<byte>, addr: nat, size: nat)
    requires AccessSize(size) && addr + size <= |memory|
    ensures
      var m: seq<int> := memory;
      && (size == 1 ==> Load(memory, addr, 1) == m[addr] - if m[addr] >= 0x80 then 0x100 else 0)
      && (size == 2 ==> Load(memory, addr, 2) == m[addr] + 0x100 * m[addr + 1])
      && (size == 4 ==>
           var u := m[addr] + 0x100 * m[addr + 1] + 0x1_0000 * m[addr + 2] + 0x100_0000 * m[addr + 3];
           Load(memory, addr, 4) == u - if u >= 0x8000_0000 then 0x1_0000_0000 else 0)
  {
    hide Unsigned;
    UnsignedIs(memory[addr..addr + size]);
  }

  /** A byte loaded out of a wider store is that byte of the value, as a `char`. */
  lemma ByteOfStore(memory: seq<byte>, addr: nat, size: nat, value: int, k: nat)
    requires addr + size <= |memory| && k < size
    ensures
      var b: int := value / Pow256(k) % 256;
      Load(Store(memory, addr, size, value), addr + k, 1) == b - if b >= 0x80 then 0x100 else 0
  {
    StoredByte(memory, addr, size, value, k);
    LoadedValue(Store(memory, addr, size, value), addr + k, 1);
  }

  /** A word stored and loaded back at the same place is the word itself. */
  lemma StoreThenLoad(memory: seq<byte>, addr: nat, size: nat, value: int)
    requires AccessSize(size) && addr + size <= |memory|
    ensures Load(Store(memory, addr, size, value), addr, size) == Extend(value % Pow256(size), size)
    ensures size == 4 && -0x8000_0000 <= value < 0x8000_0000 ==>
              Load(Store(memory, addr, size, value), addr, size) == value
  {
    UnsignedOfBytes(value, size);
    Powers();
  }

  /** An access sees nothing of a store it does not overlap. */
  lemma StoreElsewhere(memory: seq<byte>, addr: nat, size: nat, value: int, addr': nat, size': nat)
    requires addr + size <= |memory| && addr' + size' <= |memory|
    requires addr' + size' <= addr || addr + size <= addr'
    ensures Store(memory, addr, size, value)[addr'..addr' + size'] == memory[addr'..addr' + size']
    ensures Load(Store(memory, addr, size, value), addr', size') == Load(memory, addr', size')
  {
    assert Store(memory, addr, size, value)[addr'..addr' + size'] == memory[addr'..addr' + size'];
  }
}
