/** Sector allocation for one file header, and byte transfer through whole-sector reads and writes. */
module FileHeaders {
  import opened Numbers
  import opened FlatMemory
  import opened Bitmaps
  import opened FileLayout
  import opened FileOwnership

  // ---------- allocation ----------

  /** `m'` is `m` with the sectors `taken`, all different and clear before, marked. */
  ghost predicate Takes(m: seq<bool>, m': seq<bool>, taken: seq<nat>) {
    && |m'| == |m|
    && (forall i :: 0 <= i < |taken| ==> taken[i] < |m| && !m[taken[i]])
    && (forall i, j :: 0 <= i < j < |taken| ==> taken[i] != taken[j])
    && (forall s :: 0 <= s < |m| ==> m'[s] == (m[s] || s in taken))
    && ClearCount(m') + |taken| == ClearCount(m)
  }

  lemma TakesNone(m: seq<bool>)
    ensures Takes(m, m, [])
  {
  }

  lemma TakesOne(m: seq<bool>, m': seq<bool>, taken: seq<nat>, k: nat)
    requires Takes(m, m', taken) && k < |m'| && !m'[k]
    ensures Takes(m, m'[k := true], taken + [k])
  {
    CountAfterMark(m', k);
    var m'', taken' := m'[k := true], taken + [k];
    forall s | 0 <= s < |m|
      ensures m''[s] == (m[s] || s in taken')
    {
      assert m'[s] == (m[s] || s in taken);
    }
    forall i | 0 <= i < |taken'|
      ensures taken'[i] < |m| && !m[taken'[i]]
    {
      assert i < |taken| ==> taken[i] in taken && m'[taken[i]];
    }
  }

  /** The lowest sectors clear in `m`, in order: below each one everything clear has been taken before it. */
  ghost predicate Lowest(m: seq<bool>, taken: seq<nat>) {
    forall i, s :: 0 <= i < |taken| && 0 <= s < |m| && s < taken[i] && !m[s] ==> s in taken[..i]
  }

  lemma LowestOfNone(m: seq<bool>)
    ensures Lowest(m, [])
  {
  }

  lemma LowestOneMore(m: seq<bool>, m': seq<bool>, taken: seq<nat>)
    requires Takes(m, m', taken) && Lowest(m, taken) && FirstClear(m', 0) < |m'|
    ensures Lowest(m, taken + [FirstClear(m', 0)])
  {
    var k := FirstClear(m', 0);
    var taken' := taken + [k];
    forall i, s | 0 <= i < |taken'| && 0 <= s < |m| && s < taken'[i] && !m[s]
      ensures s in taken'[..i]
    {
      assert taken'[..i] == taken[..i];
      if i == |taken| {
        assert m'[s] && taken[..i] == taken;
      }
    }
  }

  /** `FileHeader::Allocate`: on failure the counts in memory have already been changed. */
  method Allocate(raw: RawHeader, freeMap: seq<bool>, fileSize: nat)
    returns (success: bool, raw': RawHeader, freeMap': seq<bool>, ghost taken: seq<nat>)
    requires HeaderOk(raw) && Encodable(raw) && |freeMap| == NUM_SECTORS && raw.numBytes + fileSize <= CAPACITY
    ensures
      var more := DivRoundUp(raw.numBytes + fileSize, SECTOR_SIZE) - raw.numSectors;
      success <==> ClearCount(freeMap) >= more
    ensures success ==> Grown(raw, raw', fileSize, taken) && Takes(freeMap, freeMap', taken) && Lowest(freeMap, taken)
    ensures !success ==> freeMap' == freeMap
  {
    raw', freeMap', taken := raw, freeMap, [];
    raw' := raw'.(numBytes := raw'.numBytes + fileSize);
    var numSectors := raw'.numSectors;
    raw' := raw'.(numSectors := DivRoundUp(raw'.numBytes, SECTOR_SIZE));
    var total := raw'.numSectors;
    var newSectors := total - numSectors;
    if newSectors != 0 && ClearCount(freeMap) < newSectors {
      return false, raw', freeMap', taken;
    }
    var i := numSectors;
    while i < total
      invariant numSectors <= i <= total <= NUM_DIRECT
      invariant raw' == raw.(numBytes := raw.numBytes + fileSize, numSectors := total, dataSectors := raw'.dataSectors)
      invariant Encodable(raw') && |taken| == i - numSectors
      invariant Lowest(freeMap, taken)
      invariant Takes(freeMap, freeMap', taken) && ClearCount(freeMap) >= newSectors
      invariant forall j :: 0 <= j < numSectors ==> raw'.dataSectors[j] == raw.dataSectors[j]
      invariant forall j :: 0 <= j < |taken| ==> raw'.dataSectors[numSectors + j] == taken[j]
    {
      FullMeansNoneClear(freeMap');
      var sector := FirstClear(freeMap', 0);
      LowestOneMore(freeMap, freeMap', taken);
      TakesOne(freeMap, freeMap', taken, sector);
      freeMap' := freeMap'[sector := true];
      raw' := raw'.(dataSectors := raw'.dataSectors[i := sector]);
      taken := taken + [sector];
      i := i + 1;
    }
    success := true;
  }

  // ---------- reading and writing bytes ----------

  /** The data sectors of a header are all different. */
  ghost predicate DistinctData(raw: RawHeader)
    requires HeaderOk(raw)
  {
    forall i, j :: 0 <= i < j < raw.numSectors ==> raw.dataSectors[i] != raw.dataSectors[j]
  }

  /** Bytes `pos` to `pos + n` of what a header describes. */
  function Slice(disk: Disk, raw: RawHeader, pos: nat, n: nat): (bytes: seq<byte>)
    requires DiskShape(disk) && HeaderOk(raw) && (n == 0 || pos + n <= raw.numBytes)
    ensures |bytes| == n
  {
    seq<byte>(n, i requires 0 <= i < n => ByteIn(disk, raw, pos + i))
  }

  lemma SliceBytes(disk: Disk, raw: RawHeader, pos: nat, n: nat)
    requires DiskShape(disk) && HeaderOk(raw) && (n == 0 || pos + n <= raw.numBytes)
    ensures forall x :: 0 <= x < n ==>
      Slice(disk, raw, pos, n)[x] == disk[raw.dataSectors[(pos + x) / SECTOR_SIZE]][(pos + x) % SECTOR_SIZE]
  {
    forall x | 0 <= x < n
      ensures Slice(disk, raw, pos, n)[x] == disk[raw.dataSectors[(pos + x) / SECTOR_SIZE]][(pos + x) % SECTOR_SIZE]
    {
      assert Slice(disk, raw, pos, n)[x] == ByteIn(disk, raw, pos + x);
    }
  }

  /** How much of a request for `n` bytes at `pos` is inside the file. */
  function Clip(raw: RawHeader, pos: nat, n: nat): nat {
    if pos >= raw.numBytes then 0 else Min(n, raw.numBytes - pos)
  }

  /** `OpenFile::ReadAt`: whole sectors into a buffer, then the part asked for. */
  method ReadAt(disk: Disk, raw: RawHeader, n: nat, position: nat) returns (into: seq<byte>)
    requires DiskShape(disk) && HeaderOk(raw) && n > 0
    ensures into == Slice(disk, raw, position, Clip(raw, position, n))
    ensures |into| ==
      if position + n <= raw.numBytes then n else if position < raw.numBytes then raw.numBytes - position else 0
    ensures forall x :: 0 <= x < |into| ==>
      into[x] == disk[raw.dataSectors[(position + x) / SECTOR_SIZE]][(position + x) % SECTOR_SIZE]
  {
    SliceBytes(disk, raw, position, Clip(raw, position, n));
    hide Slice;
    var fileLength, numBytes := raw.numBytes, n;
    if position >= fileLength {
      return [];
    }
    if position + numBytes > fileLength {
      numBytes := fileLength - position;
    }
    var firstSector := position / SECTOR_SIZE;
    var lastSector := (position + numBytes - 1) / SECTOR_SIZE;
    var buf: seq<byte> := [];
    var i := firstSector;
    while i <= lastSector
      invariant firstSector <= i <= lastSector + 1 <= raw.numSectors
        && Sectors(disk, raw, firstSector, i - firstSector, buf)
    {
      var sector := disk[raw.dataSectors[i]];
      AppendSector(disk, raw, firstSector, i - firstSector, buf);
      buf := buf + sector;
      i := i + 1;
    }
    var from := position - firstSector * SECTOR_SIZE;
    CutOut(disk, raw, position, numBytes, firstSector, i - firstSector, buf);
    into := buf[from..from + numBytes];
  }

  /** `buf` is the `k` sectors of the file from sector `first` on. */
  ghost predicate Sectors(disk: Disk, raw: RawHeader, first: nat, k: nat, buf: seq<byte>) {
    && DiskShape(disk) && HeaderOk(raw) && first + k <= raw.numSectors && |buf| == k * SECTOR_SIZE
    && forall x :: 0 <= x < |buf| ==> buf[x] == disk[raw.dataSectors[first + x / SECTOR_SIZE]][x % SECTOR_SIZE]
  }

  lemma AppendSector(disk: Disk, raw: RawHeader, first: nat, k: nat, buf: seq<byte>)
    requires Sectors(disk, raw, first, k, buf) && first + k < raw.numSectors
    ensures Sectors(disk, raw, first, k + 1, buf + disk[raw.dataSectors[first + k]])
  {
    var b := buf + disk[raw.dataSectors[first + k]];
    forall x | |buf| <= x < |b|
      ensures b[x] == disk[raw.dataSectors[first + x / SECTOR_SIZE]][x % SECTOR_SIZE]
    {
      assert x / SECTOR_SIZE == k;
    }
  }

  /** The bytes asked for, cut out of the sectors that hold them. */
  lemma CutOut(disk: Disk, raw: RawHeader, position: nat, n: nat, first: nat, k: nat, buf: seq<byte>)
    requires Sectors(disk, raw, first, k, buf) && first == position / SECTOR_SIZE && position + n <= raw.numBytes
    requires position + n <= (first + k) * SECTOR_SIZE
    ensures
      var from := position - first * SECTOR_SIZE;
      0 <= from && from + n <= |buf| && buf[from..from + n] == Slice(disk, raw, position, n)
  {
    var from := position - first * SECTOR_SIZE;
    var cut := buf[from..from + n];
    forall x | 0 <= x < n
      ensures cut[x] == ByteIn(disk, raw, position + x)
    {
      assert cut[x] == buf[from + x];
      SameSector(position, first, x);
    }
  }

  lemma SameSector(position: nat, first: nat, x: nat)
    requires first == position / SECTOR_SIZE
    ensures
      var from := position - first * SECTOR_SIZE;
      && 0 <= from < SECTOR_SIZE
      && first + (from + x) / SECTOR_SIZE == (position + x) / SECTOR_SIZE
      && (from + x) % SECTOR_SIZE == (position + x) % SECTOR_SIZE
  {
  }

  /** What the buffer has to hold before it is written back: new bytes inside the range, old ones outside. */
  ghost predicate BufferOk(buf: seq<byte>, disk: Disk, raw: RawHeader, first: nat, pos: nat, data: seq<byte>) {
    && DiskShape(disk) && HeaderOk(raw)
    && forall x :: 0 <= x < |buf| && first * SECTOR_SIZE + x < raw.numBytes ==>
         buf[x] == NewByte(disk, raw, pos, data, first * SECTOR_SIZE + x)
  }

  function NewByte(disk: Disk, raw: RawHeader, pos: nat, data: seq<byte>, i: nat): byte
    requires DiskShape(disk) && HeaderOk(raw) && i < raw.numBytes
  {
    if pos <= i < pos + |data| then data[i - pos] else ByteIn(disk, raw, i)
  }

  /** Fills the write buffer; whatever memory it was made of shows through only past the end of the file. */
  method FillBuffer(disk: Disk, raw: RawHeader, data: seq<byte>, position: nat, first: nat, last: nat)
    returns (buf: seq<byte>)
    requires DiskShape(disk) && HeaderOk(raw) && data != [] && position + |data| <= raw.numBytes
    requires first == position / SECTOR_SIZE && last == (position + |data| - 1) / SECTOR_SIZE
    ensures |buf| == (1 + last - first) * SECTOR_SIZE && BufferOk(buf, disk, raw, first, position, data)
  {
    var size := (1 + last - first) * SECTOR_SIZE;
    assert |seq<byte>(size, _ => 0)| == size;
    buf :| |buf| == size;
    var firstAligned := position == first * SECTOR_SIZE;
    var lastAligned := position + |data| == (last + 1) * SECTOR_SIZE;
    if !firstAligned {
      buf := LoadSector(buf, disk, raw, first, 0);
    }
    if !lastAligned && (first != last || firstAligned) {
      buf := LoadSector(buf, disk, raw, first, last - first);
    }
    buf := Overlay(buf, disk, raw, data, position, first, last);
  }

  /** Reads one sector, as far as the file goes, into place `k` of the buffer. */
  method LoadSector(buf: seq<byte>, disk: Disk, raw: RawHeader, first: nat, k: nat) returns (buf': seq<byte>)
    requires DiskShape(disk) && HeaderOk(raw) && (k + 1) * SECTOR_SIZE <= |buf|
    requires (first + k) * SECTOR_SIZE < raw.numBytes
    ensures |buf'| == |buf| && OldBytes(buf', disk, raw, first, k)
    ensures forall x {:trigger buf'[x]} :: 0 <= x < |buf| && !(k * SECTOR_SIZE <= x < (k + 1) * SECTOR_SIZE) ==>
      buf'[x] == buf[x]
  {
    var sector := ReadAt(disk, raw, SECTOR_SIZE, (first + k) * SECTOR_SIZE);
    var at := k * SECTOR_SIZE;
    buf' := Splice(buf, at, sector);
    LoadedBytes(buf', disk, raw, first, k, sector);
  }

  lemma LoadedBytes(buf: seq<byte>, disk: Disk, raw: RawHeader, first: nat, k: nat, sector: seq<byte>)
    requires DiskShape(disk) && HeaderOk(raw) && (k + 1) * SECTOR_SIZE <= |buf|
    requires (first + k) * SECTOR_SIZE < raw.numBytes
    requires sector == Slice(disk, raw, (first + k) * SECTOR_SIZE, Clip(raw, (first + k) * SECTOR_SIZE, SECTOR_SIZE))
    requires buf[k * SECTOR_SIZE..k * SECTOR_SIZE + |sector|] == sector
    ensures OldBytes(buf, disk, raw, first, k)
  {
    hide ByteIn, DiskShape, HeaderOk;
    var at := k * SECTOR_SIZE;
    forall x | at <= x < at + |sector|
      ensures buf[x] == ByteIn(disk, raw, first * SECTOR_SIZE + x)
    {
      assert buf[at..at + |sector|][x - at] == sector[x - at];
    }
  }

  /** Sector `k` of the buffer holds what the disk holds, up to the end of the file. */
  ghost predicate OldBytes(buf: seq<byte>, disk: Disk, raw: RawHeader, first: nat, k: nat)
    requires DiskShape(disk) && HeaderOk(raw)
  {
    forall x ::
      k * SECTOR_SIZE <= x < (k + 1) * SECTOR_SIZE && 0 <= x < |buf| && first * SECTOR_SIZE + x < raw.numBytes ==>
        buf[x] == ByteIn(disk, raw, first * SECTOR_SIZE + x)
  }

  method Overlay(buf: seq<byte>, disk: Disk, raw: RawHeader, data: seq<byte>, position: nat, first: nat, last: nat)
    returns (buf': seq<byte>)
    requires DiskShape(disk) && HeaderOk(raw) && data != [] && position + |data| <= raw.numBytes
    requires first == position / SECTOR_SIZE && last == (position + |data| - 1) / SECTOR_SIZE
    requires |buf| == (1 + last - first) * SECTOR_SIZE
    requires position == first * SECTOR_SIZE || OldBytes(buf, disk, raw, first, 0)
    requires position + |data| == (last + 1) * SECTOR_SIZE || OldBytes(buf, disk, raw, first, last - first)
    ensures |buf'| == |buf| && BufferOk(buf', disk, raw, first, position, data)
  {
    var from := position - first * SECTOR_SIZE;
    buf' := Splice(buf, from, data);
    OutsideRange(position, |data|, first, last);
    forall x | 0 <= x < |buf'| && first * SECTOR_SIZE + x < raw.numBytes
      ensures buf'[x] == NewByte(disk, raw, position, data, first * SECTOR_SIZE + x)
    {
      OverlaidByte(buf, disk, raw, data, first, last - first, from, x);
    }
  }

  lemma OverlaidByte(buf: seq<byte>, disk: Disk, raw: RawHeader, data: seq<byte>, first: nat, k: nat, from: nat, x: nat)
    requires DiskShape(disk) && HeaderOk(raw)
    requires |buf| == (1 + k) * SECTOR_SIZE && from < SECTOR_SIZE && k * SECTOR_SIZE < from + |data| <= |buf|
    requires from == 0 || OldBytes(buf, disk, raw, first, 0)
    requires from + |data| == |buf| || OldBytes(buf, disk, raw, first, k)
    requires x < |buf| && first * SECTOR_SIZE + x < raw.numBytes
    ensures Splice(buf, from, data)[x] == NewByte(disk, raw, first * SECTOR_SIZE + from, data, first * SECTOR_SIZE + x)
  {
    var buf' := Splice(buf, from, data);
    hide Splice, ByteIn, DiskShape, HeaderOk;
    if x < from || from + |data| <= x {
      assert buf'[x] == buf[x];
    } else {
      assert buf'[from..from + |data|][x - from] == data[x - from];
    }
  }

  /**
   What lies before the range is in the first sector, what lies behind it in the last; nothing does if
   it is aligned.
   */
  lemma OutsideRange(position: nat, n: nat, first: nat, last: nat)
    requires n > 0 && first == position / SECTOR_SIZE && last == (position + n - 1) / SECTOR_SIZE
    ensures
      var from := position - first * SECTOR_SIZE;
      && 0 <= from < SECTOR_SIZE && (last - first) * SECTOR_SIZE < from + n <= (1 + last - first) * SECTOR_SIZE
      && (position == first * SECTOR_SIZE <==> from == 0)
      && (position + n == (last + 1) * SECTOR_SIZE <==> from + n == (1 + last - first) * SECTOR_SIZE)
  {
  }

  /** `OpenFile::WriteAt`: read-modify-write of the sectors touched. */
  method WriteAt(disk: Disk, raw: RawHeader, from: seq<byte>, position: nat) returns (disk': Disk, written: nat)
    requires DiskShape(disk) && HeaderOk(raw) && DistinctData(raw) && from != []
    ensures written == Clip(raw, position, |from|)
    ensures DiskShape(disk') && forall x :: 0 <= x < raw.numBytes ==>
      disk'[raw.dataSectors[x / SECTOR_SIZE]][x % SECTOR_SIZE]
        == if position <= x < position + |from| then from[x - position]
           else disk[raw.dataSectors[x / SECTOR_SIZE]][x % SECTOR_SIZE]
    ensures written > 0 ==> Written(disk, disk', raw, position, from[..written])
    ensures written == 0 ==> disk' == disk
  {
    disk' := disk;
    var fileLength, numBytes := raw.numBytes, |from|;
    if position >= fileLength {
      return disk', 0;
    }
    if position + numBytes > fileLength {
      numBytes := fileLength - position;
    }
    written := numBytes;
    var data := from[..numBytes];
    var first := position / SECTOR_SIZE;
    var last := (position + numBytes - 1) / SECTOR_SIZE;
    var buf := FillBuffer(disk, raw, data, position, first, last);
    disk' := WriteSectors(disk, raw, buf, first, last);
    WrittenBack(disk, disk', raw, position, data, first, last, buf);
    forall x | 0 <= x < raw.numBytes
      ensures disk'[raw.dataSectors[x / SECTOR_SIZE]][x % SECTOR_SIZE]
           == if position <= x < position + |from| then from[x - position]
              else disk[raw.dataSectors[x / SECTOR_SIZE]][x % SECTOR_SIZE]
    {
      assert ByteIn(disk', raw, x) == NewByte(disk, raw, position, data, x);
    }
  }

  /** Writes the buffer to the sectors it was made for. */
  method WriteSectors(disk: Disk, raw: RawHeader, buf: seq<byte>, first: nat, last: nat) returns (disk': Disk)
    requires DiskShape(disk) && HeaderOk(raw) && DistinctData(raw)
    requires first <= last < raw.numSectors && |buf| == (1 + last - first) * SECTOR_SIZE
    ensures DiskShape(disk')
    ensures forall j :: first <= j <= last ==>
              disk'[raw.dataSectors[j]] == buf[(j - first) * SECTOR_SIZE..(j - first + 1) * SECTOR_SIZE]
    ensures forall s :: 0 <= s < NUM_SECTORS && s !in raw.dataSectors[first..last + 1] ==> disk'[s] == disk[s]
  {
    disk' := disk;
    var i := first;
    while i <= last
      invariant first <= i <= last + 1 <= raw.numSectors && DiskShape(disk')
      invariant forall j :: first <= j < i ==>
        disk'[raw.dataSectors[j]] == buf[(j - first) * SECTOR_SIZE..(j - first + 1) * SECTOR_SIZE]
      invariant forall s :: 0 <= s < NUM_SECTORS && s !in raw.dataSectors[first..i] ==> disk'[s] == disk[s]
    {
      var sector := buf[(i - first) * SECTOR_SIZE..(i - first + 1) * SECTOR_SIZE];
      assert raw.dataSectors[first..i + 1] == raw.dataSectors[first..i] + [raw.dataSectors[i]];
      disk' := disk'[raw.dataSectors[i] := sector];
      i := i + 1;
    }
  }

  lemma WrittenBack(disk: Disk, disk': Disk, raw: RawHeader, pos: nat, data: seq<byte>, first: nat, last: nat,
                    buf: seq<byte>)
    requires DiskShape(disk') && data != [] && pos + |data| <= raw.numBytes
    requires BufferOk(buf, disk, raw, first, pos, data) && DistinctData(raw)
    requires first == pos / SECTOR_SIZE && last == (pos + |data| - 1) / SECTOR_SIZE < raw.numSectors
    requires |buf| == (1 + last - first) * SECTOR_SIZE
    requires forall j :: first <= j <= last ==>
               disk'[raw.dataSectors[j]] == buf[(j - first) * SECTOR_SIZE..(j - first + 1) * SECTOR_SIZE]
    requires forall s :: 0 <= s < NUM_SECTORS && s !in raw.dataSectors[first..last + 1] ==> disk'[s] == disk[s]
    ensures Written(disk, disk', raw, pos, data)
  {
    forall i | 0 <= i < raw.numBytes
      ensures ByteIn(disk', raw, i) == NewByte(disk, raw, pos, data, i)
    {
      if first <= i / SECTOR_SIZE <= last {
        ByteWrittenBack(disk, disk', raw, pos, data, first, last, buf, i);
      } else {
        assert raw.dataSectors[i / SECTOR_SIZE] !in raw.dataSectors[first..last + 1];
      }
    }
    forall s | 0 <= s < NUM_SECTORS && s !in raw.dataSectors[..raw.numSectors]
      ensures disk'[s] == disk[s]
    {
      InPart(raw.dataSectors, first, last + 1, raw.numSectors, s);
    }
  }

  /** What is in a slice is in the sequence. */
  lemma InPart(sectors: seq<nat>, from: nat, to: nat, end: nat, s: nat)
    requires from <= to <= end <= |sectors| && s !in sectors[..end]
    ensures s !in sectors[from..to]
  {
    assert forall j :: from <= j < to ==> sectors[j] == sectors[..end][j];
  }

  /** A byte of a sector that was written comes from the buffer. */
  lemma ByteWrittenBack(disk: Disk, disk': Disk, raw: RawHeader, pos: nat, data: seq<byte>, first: nat, last: nat,
                        buf: seq<byte>, i: nat)
    requires DiskShape(disk') && BufferOk(buf, disk, raw, first, pos, data) && i < raw.numBytes
    requires first <= i / SECTOR_SIZE <= last < raw.numSectors && |buf| == (1 + last - first) * SECTOR_SIZE
    requires forall j :: first <= j <= last ==>
               disk'[raw.dataSectors[j]] == buf[(j - first) * SECTOR_SIZE..(j - first + 1) * SECTOR_SIZE]
    ensures ByteIn(disk', raw, i) == NewByte(disk, raw, pos, data, i)
  {
    var q, x := i / SECTOR_SIZE, i - first * SECTOR_SIZE;
    assert x == (q - first) * SECTOR_SIZE + i % SECTOR_SIZE;
    assert disk'[raw.dataSectors[q]][i % SECTOR_SIZE] == buf[x];
  }

  /** What was written is what is read, and reads elsewhere in the header are as before. */
  lemma ReadAfterWrite(disk: Disk, disk': Disk, raw: RawHeader, pos: nat, data: seq<byte>, p: nat, n: nat)
    requires Written(disk, disk', raw, pos, data) && p + n <= raw.numBytes
    ensures Slice(disk', raw, pos, |data|) == data
    ensures p + n <= pos || pos + |data| <= p ==> Slice(disk', raw, p, n) == Slice(disk, raw, p, n)
  {
  }
}
