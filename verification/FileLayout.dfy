/** What the sectors of a disk mean: file headers, and the bytes of the files they describe. */
module FileLayout {
  import opened FlatMemory
  import opened Bitmaps

  const SECTOR_SIZE := 128
  const NUM_SECTORS := 1024
  const NUM_DIRECT := 29
  const CAPACITY := NUM_DIRECT * SECTOR_SIZE

  /** A file header as it is kept in memory. */
  datatype RawHeader = RawHeader(numBytes: nat, numSectors: nat, dataSectors: seq<nat>, next: nat)

  type Disk = seq<seq<byte>>

  predicate DiskShape(disk: Disk) {
    |disk| == NUM_SECTORS && forall s :: 0 <= s < NUM_SECTORS ==> |disk[s]| == SECTOR_SIZE
  }

  // ---------- the header codec: 32 little-endian words, exactly one sector ----------

  predicate Encodable(raw: RawHeader) {
    && |raw.dataSectors| == NUM_DIRECT
    && raw.numBytes < 0x1_0000_0000 && raw.numSectors < 0x1_0000_0000 && raw.next < 0x1_0000_0000
    && forall i :: 0 <= i < NUM_DIRECT ==> raw.dataSectors[i] < 0x1_0000_0000
  }

  /** Words as the machine stores them, four bytes each. */
  function Pack(words: seq<nat>): (bytes: seq<byte>)
    ensures |bytes| == 4 * |words|
  {
    if words == [] then [] else Pack(words[..|words| - 1]) + Bytes(words[|words| - 1], 4)
  }

  /** The words that a byte string holds. */
  function UnpackWords(bytes: seq<byte>): (words: seq<nat>)
    ensures |words| == |bytes| / 4
  {
    if |bytes| < 4 then [] else UnpackWords(bytes[..|bytes| - 4]) + [Unsigned(bytes[|bytes| - 4..])]
  }

  function Encode(raw: RawHeader): (sector: seq<byte>)
    requires |raw.dataSectors| == NUM_DIRECT
    ensures |sector| == SECTOR_SIZE
  {
    Pack([raw.numBytes, raw.numSectors] + raw.dataSectors + [raw.next])
  }

  function Decode(sector: seq<byte>): (raw: RawHeader)
    requires |sector| == SECTOR_SIZE
    ensures |raw.dataSectors| == NUM_DIRECT
  {
    var words := UnpackWords(sector);
    RawHeader(words[0], words[1], words[2..NUM_DIRECT + 2], words[NUM_DIRECT + 2])
  }

  lemma FourBytes(x: nat)
    requires x < 0x1_0000_0000
    ensures Unsigned(Bytes(x, 4)) == x
  {
    UnsignedOfBytes(x, 4);
    Powers();
  }

  lemma {:induction false} PackRoundTrip(words: seq<nat>)
    requires forall i :: 0 <= i < |words| ==> words[i] < 0x1_0000_0000
    ensures UnpackWords(Pack(words)) == words
  {
    if words != [] {
      var front, x := words[..|words| - 1], words[|words| - 1];
      PackRoundTrip(front);
      FourBytes(x);
      var bytes := Pack(words);
      assert bytes[..|bytes| - 4] == Pack(front);
      assert bytes[|bytes| - 4..] == Bytes(x, 4);
    }
  }

  /** A header written to its sector is fetched back unchanged. */
  lemma HeaderRoundTrip(raw: RawHeader)
    requires Encodable(raw)
    ensures Decode(Encode(raw)) == raw
  {
    var words := [raw.numBytes, raw.numSectors] + raw.dataSectors + [raw.next];
    PackRoundTrip(words);
    assert words[2..NUM_DIRECT + 2] == raw.dataSectors;
  }

  /** Word `w` of a byte string, least significant byte first. */
  function WordOf(bytes: seq<byte>, w: nat): int
    requires 4 * w + 4 <= |bytes|
  {
    var b: seq<int> := bytes[4 * w..4 * w + 4];
    b[0] + 0x100 * b[1] + 0x1_0000 * b[2] + 0x100_0000 * b[3]
  }

  lemma {:induction false} UnpackedWord(bytes: seq<byte>, w: nat)
    requires |bytes| % 4 == 0 && 4 * w + 4 <= |bytes|
    ensures UnpackWords(bytes)[w] == WordOf(bytes, w)
  {
    hide Unsigned;
    var front := bytes[..|bytes| - 4];
    if 4 * w + 4 == |bytes| {
      UnsignedIs(bytes[|bytes| - 4..]);
    } else {
      UnpackedWord(front, w);
      assert front[4 * w..4 * w + 4] == bytes[4 * w..4 * w + 4];
    }
  }

  lemma {:induction false} PackedByte(words: seq<nat>, w: nat, k: nat)
    requires w < |words| && k < 4
    ensures Pack(words)[4 * w + k] == words[w] / Pow256(k) % 256
  {
    hide Pow256, Digit;
    var last := |words| - 1;
    if w == last {
      DigitIs(words[w], k);
      assert Pack(words)[4 * w + k] == Bytes(words[w], 4)[k];
    } else {
      PackedByte(words[..last], w, k);
      assert Pack(words)[4 * w + k] == Pack(words[..last])[4 * w + k];
    }
  }

  /** The word of a header sector that holds each field. */
  function Field(raw: RawHeader, w: nat): nat
    requires |raw.dataSectors| == NUM_DIRECT && w < 32
  {
    if w == 0 then raw.numBytes else if w == 1 then raw.numSectors
    else if w < 31 then raw.dataSectors[w - 2] else raw.next
  }

  /** Where the bytes of a header go, and what is fetched from them. */
  lemma HeaderBytes(raw: RawHeader, sector: seq<byte>, w: nat, k: nat)
    requires |raw.dataSectors| == NUM_DIRECT && |sector| == SECTOR_SIZE && w < 32 && k < 4
    ensures Encode(raw)[4 * w + k] == Field(raw, w) / Pow256(k) % 256
    ensures Field(Decode(sector), w) == WordOf(sector, w)
  {
    hide Pack, UnpackWords, Pow256;
    PackedByte([raw.numBytes, raw.numSectors] + raw.dataSectors + [raw.next], w, k);
    UnpackedWord(sector, w);
  }

  lemma {:induction false} WordsAreSmall(bytes: seq<byte>)
    ensures forall i :: 0 <= i < |UnpackWords(bytes)| ==> UnpackWords(bytes)[i] < 0x1_0000_0000
  {
    if |bytes| >= 4 {
      WordsAreSmall(bytes[..|bytes| - 4]);
      WordIsSmall(bytes[|bytes| - 4..]);
    }
  }

  lemma WordIsSmall(b: seq<byte>)
    requires |b| == 4
    ensures Unsigned(b) < 0x1_0000_0000
  {
    assert b[1..][1..] == b[2..] && b[2..][1..] == b[3..] && b[3..][1..] == [];
    assert Unsigned(b[3..]) == b[3];
    assert Unsigned(b[2..]) == b[2] + 256 * Unsigned(b[3..]);
    assert Unsigned(b[1..]) == b[1] + 256 * Unsigned(b[2..]);
  }

  /** Whatever a sector holds, it decodes to something that can be encoded. */
  lemma DecodedIsEncodable(sector: seq<byte>)
    requires |sector| == SECTOR_SIZE
    ensures Encodable(Decode(sector))
  {
    WordsAreSmall(sector);
  }

  // ---------- headers and chains ----------

  /** A header whose counts agree and whose sectors are on the disk. */
  predicate HeaderOk(raw: RawHeader) {
    && |raw.dataSectors| == NUM_DIRECT
    && raw.numBytes <= CAPACITY
    && raw.numSectors == DivRoundUp(raw.numBytes, SECTOR_SIZE) <= NUM_DIRECT
    && raw.next < NUM_SECTORS
    && forall j :: 0 <= j < raw.numSectors ==> raw.dataSectors[j] < NUM_SECTORS
  }

  function Raw(disk: Disk, h: nat): (raw: RawHeader)
    requires DiskShape(disk) && h < NUM_SECTORS
    ensures |raw.dataSectors| == NUM_DIRECT
  {
    Decode(disk[h])
  }

  /** Byte `i` of the part of a file that one header describes. */
  function ByteIn(disk: Disk, raw: RawHeader, i: nat): byte
    requires DiskShape(disk) && HeaderOk(raw) && i < raw.numBytes
  {
    disk[raw.dataSectors[i / SECTOR_SIZE]][i % SECTOR_SIZE]
  }

  /**
   The header sectors `chain` make up a file: linked in order, ended by 0, every
   header well-formed and every header but the last one full.
   */
  ghost predicate ChainOk(disk: Disk, chain: seq<nat>) {
    && DiskShape(disk) && chain != []
    && (forall k :: 0 <= k < |chain| ==> LinkOk(disk, chain, k))
  }

  ghost predicate LinkOk(disk: Disk, chain: seq<nat>, k: nat)
    requires DiskShape(disk) && k < |chain|
  {
    && 0 < chain[k] < NUM_SECTORS
    && var raw := Raw(disk, chain[k]);
       && HeaderOk(raw)
       && raw.next == (if k + 1 < |chain| then chain[k + 1] else 0)
       && (k + 1 < |chain| ==> raw.numBytes == CAPACITY)
  }

  function Last(chain: seq<nat>): nat
    requires chain != []
  {
    chain[|chain| - 1]
  }

  ghost function Length(disk: Disk, chain: seq<nat>): nat
    requires ChainOk(disk, chain)
  {
    assert LinkOk(disk, chain, |chain| - 1);
    (|chain| - 1) * CAPACITY + Raw(disk, Last(chain)).numBytes
  }

  /** Which header holds byte `x`, and that it does. */
  lemma Located(disk: Disk, chain: seq<nat>, x: nat)
    requires ChainOk(disk, chain) && x < Length(disk, chain)
    ensures x / CAPACITY < |chain| && LinkOk(disk, chain, x / CAPACITY)
    ensures x % CAPACITY < Raw(disk, chain[x / CAPACITY]).numBytes
  {
    assert LinkOk(disk, chain, |chain| - 1);
    if x / CAPACITY < |chain| {
      assert LinkOk(disk, chain, x / CAPACITY);
    }
  }

  ghost function ByteAt(disk: Disk, chain: seq<nat>, x: nat): byte
    requires ChainOk(disk, chain) && x < Length(disk, chain)
  {
    Located(disk, chain, x);
    ByteIn(disk, Raw(disk, chain[x / CAPACITY]), x % CAPACITY)
  }

  /** The bytes of the file, front to back. */
  ghost function Contents(disk: Disk, chain: seq<nat>): (bytes: seq<byte>)
    requires ChainOk(disk, chain)
    ensures |bytes| == Length(disk, chain)
  {
    seq<byte>(Length(disk, chain), x requires 0 <= x < Length(disk, chain) => ByteAt(disk, chain, x))
  }

  /** Two states of a file with the same shape and the same bytes have the same contents. */
  lemma SameContents(disk: Disk, chain: seq<nat>, disk': Disk, chain': seq<nat>)
    requires ChainOk(disk, chain) && ChainOk(disk', chain') && Length(disk, chain) == Length(disk', chain')
    requires forall x :: 0 <= x < Length(disk, chain) ==> ByteAt(disk, chain, x) == ByteAt(disk', chain', x)
    ensures Contents(disk, chain) == Contents(disk', chain')
  {
  }
}
