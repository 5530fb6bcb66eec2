/**
 Who owns which sector.  Every allocated sector has at most one owner, so the
 headers and data of all files are disjoint; the steps of file writing, creation
 and removal keep it that way.
 */
module FileOwnership {
  import opened FlatMemory
  import opened Bitmaps
  import opened FileLayout

  /** The disk and the on-disk map of used sectors. */
  datatype Fs = Fs(disk: Disk, marks: seq<bool>)

  datatype Owner = System | HeaderOf(name: string, k: nat) | DataOf(name: string, k: nat, j: nat)

  /** Bookkeeping for the proof: each file's header chain, and the owner of each owned sector. */
  datatype Book = Book(files: map<string, seq<nat>>, owner: map<nat, Owner>)

  predicate Shape(fs: Fs) {
    DiskShape(fs.disk) && |fs.marks| == NUM_SECTORS
  }

  /** Header `k` of file `name` and its data sectors belong to it. */
  ghost predicate Owns(disk: Disk, book: Book, name: string, k: nat)
    requires DiskShape(disk) && name in book.files && k < |book.files[name]|
  {
    var h := book.files[name][k];
    && h < NUM_SECTORS && h in book.owner && book.owner[h] == HeaderOf(name, k)
    && var raw := Raw(disk, h);
       && raw.numSectors <= NUM_DIRECT
       && forall j :: 0 <= j < raw.numSectors ==> OwnsData(book, name, k, raw, j)
  }

  ghost predicate OwnsData(book: Book, name: string, k: nat, raw: RawHeader, j: nat)
    requires |raw.dataSectors| == NUM_DIRECT && j < NUM_DIRECT
  {
    raw.dataSectors[j] in book.owner && book.owner[raw.dataSectors[j]] == DataOf(name, k, j)
  }

  /** An owned sector really is what its owner says. */
  ghost predicate Backed(disk: Disk, book: Book, s: nat)
    requires DiskShape(disk) && s in book.owner
  {
    match book.owner[s]
    case System => true
    case HeaderOf(name, k) => name in book.files && k < |book.files[name]| && book.files[name][k] == s
    case DataOf(name, k, j) =>
      && name in book.files && k < |book.files[name]| && book.files[name][k] < NUM_SECTORS
      && var raw := Raw(disk, book.files[name][k]);
         j < raw.numSectors && j < NUM_DIRECT && raw.dataSectors[j] == s
  }

  ghost predicate FileOk(disk: Disk, book: Book, name: string)
    requires DiskShape(disk) && name in book.files
  {
    && ChainOk(disk, book.files[name])
    && forall k :: 0 <= k < |book.files[name]| ==> Owns(disk, book, name, k)
  }

  ghost predicate FsInv(fs: Fs, book: Book) {
    && Shape(fs)
    && 0 in book.owner && book.owner[0] == System
    && (forall s :: s in book.owner ==> s < NUM_SECTORS && fs.marks[s] && Backed(fs.disk, book, s))
    && (forall name :: name in book.files ==> FileOk(fs.disk, book, name))
  }

  ghost function FileBytes(fs: Fs, book: Book, name: string): seq<byte>
    requires FsInv(fs, book) && name in book.files
  {
    assert FileOk(fs.disk, book, name);
    Contents(fs.disk, book.files[name])
  }

  /** The sectors of one file. */
  ghost function SectorsOf(book: Book, name: string): set<nat> {
    set s | s in book.owner && !book.owner[s].System? && book.owner[s].name == name
  }

  // ---------- what ownership means ----------

  /** The header of `name`'s part `k` and its data sectors, with their owners. */
  lemma OwnersOf(fs: Fs, book: Book, name: string, k: nat)
    requires FsInv(fs, book) && name in book.files && k < |book.files[name]|
    ensures
      var h := book.files[name][k];
      && 0 < h < NUM_SECTORS && h in book.owner && book.owner[h] == HeaderOf(name, k) && fs.marks[h]
      && LinkOk(fs.disk, book.files[name], k)
      && var raw := Raw(fs.disk, h);
         && HeaderOk(raw)
         && forall j :: 0 <= j < raw.numSectors ==>
              && raw.dataSectors[j] in book.owner && book.owner[raw.dataSectors[j]] == DataOf(name, k, j)
              && fs.marks[raw.dataSectors[j]]
  {
    assert FileOk(fs.disk, book, name);
    assert Owns(fs.disk, book, name, k) && LinkOk(fs.disk, book.files[name], k);
    var raw := Raw(fs.disk, book.files[name][k]);
    forall j | 0 <= j < raw.numSectors
      ensures raw.dataSectors[j] in book.owner && book.owner[raw.dataSectors[j]] == DataOf(name, k, j)
    {
      assert OwnsData(book, name, k, raw, j);
    }
  }

  /** The sectors of one header: itself first, then its data. */
  function Extent(disk: Disk, h: nat): (sectors: seq<nat>)
    requires DiskShape(disk) && h < NUM_SECTORS && Raw(disk, h).numSectors <= NUM_DIRECT
    ensures |sectors| == 1 + Raw(disk, h).numSectors
  {
    [h] + Raw(disk, h).dataSectors[..Raw(disk, h).numSectors]
  }

  /** No sector is used twice, within a file or between files, and all are marked. */
  lemma SectorsAreDisjoint(fs: Fs, book: Book, a: string, k: nat, b: string, m: nat, i: nat, j: nat)
    requires FsInv(fs, book) && a in book.files && b in book.files
    requires k < |book.files[a]| && m < |book.files[b]|
    requires book.files[a][k] < NUM_SECTORS && Raw(fs.disk, book.files[a][k]).numSectors <= NUM_DIRECT
    requires book.files[b][m] < NUM_SECTORS && Raw(fs.disk, book.files[b][m]).numSectors <= NUM_DIRECT
    requires i < |Extent(fs.disk, book.files[a][k])| && j < |Extent(fs.disk, book.files[b][m])|
    requires (a, k, i) != (b, m, j)
    ensures Extent(fs.disk, book.files[a][k])[i] != Extent(fs.disk, book.files[b][m])[j]
    ensures Extent(fs.disk, book.files[a][k])[i] < NUM_SECTORS && fs.marks[Extent(fs.disk, book.files[a][k])[i]]
  {
    OwnersOf(fs, book, a, k);
    OwnersOf(fs, book, b, m);
    OwnerInExtent(fs, book, a, k, i);
    OwnerInExtent(fs, book, b, m, j);
  }

  lemma OwnerInExtent(fs: Fs, book: Book, name: string, k: nat, i: nat)
    requires FsInv(fs, book) && name in book.files && k < |book.files[name]|
    requires book.files[name][k] < NUM_SECTORS && Raw(fs.disk, book.files[name][k]).numSectors <= NUM_DIRECT
    requires i < |Extent(fs.disk, book.files[name][k])|
    ensures
      var s := Extent(fs.disk, book.files[name][k])[i];
      s in book.owner && book.owner[s] == if i == 0 then HeaderOf(name, k) else DataOf(name, k, i - 1)
  {
    OwnersOf(fs, book, name, k);
    var raw := Raw(fs.disk, book.files[name][k]);
    if i > 0 {
      assert Extent(fs.disk, book.files[name][k])[i] == raw.dataSectors[i - 1];
    }
  }

  // ---------- frame ----------

  /** The sectors of `chain` hold the same on both disks. */
  ghost predicate Untouched(disk: Disk, disk': Disk, chain: seq<nat>)
    requires ChainOk(disk, chain) && DiskShape(disk')
  {
    forall k :: 0 <= k < |chain| ==> HeaderUntouched(disk, disk', chain, k)
  }

  ghost predicate HeaderUntouched(disk: Disk, disk': Disk, chain: seq<nat>, k: nat)
    requires ChainOk(disk, chain) && DiskShape(disk') && k < |chain|
  {
    assert LinkOk(disk, chain, k);
    && disk'[chain[k]] == disk[chain[k]]
    && var raw := Raw(disk, chain[k]);
       forall j :: 0 <= j < raw.numSectors ==> disk'[raw.dataSectors[j]] == disk[raw.dataSectors[j]]
  }

  lemma UntouchedFile(disk: Disk, disk': Disk, chain: seq<nat>)
    requires ChainOk(disk, chain) && DiskShape(disk') && Untouched(disk, disk', chain)
    ensures ChainOk(disk', chain) && Contents(disk', chain) == Contents(disk, chain)
  {
    forall k | 0 <= k < |chain|
      ensures LinkOk(disk', chain, k)
    {
      assert LinkOk(disk, chain, k) && HeaderUntouched(disk, disk', chain, k);
    }
    assert HeaderUntouched(disk, disk', chain, |chain| - 1);
    forall x | 0 <= x < Length(disk, chain)
      ensures ByteAt(disk, chain, x) == ByteAt(disk', chain, x)
    {
      Located(disk, chain, x);
      assert HeaderUntouched(disk, disk', chain, x / CAPACITY);
    }
    SameContents(disk, chain, disk', chain);
  }

  // ---------- overwriting bytes of one header ----------

  /** `disk'` is `disk` with `data` laid over the header's bytes from `pos` on; tails of sectors aside. */
  ghost predicate Written(disk: Disk, disk': Disk, raw: RawHeader, pos: nat, data: seq<byte>) {
    && DiskShape(disk) && DiskShape(disk') && HeaderOk(raw) && pos + |data| <= raw.numBytes
    && (forall s :: 0 <= s < NUM_SECTORS && s !in raw.dataSectors[..raw.numSectors] ==> disk'[s] == disk[s])
    && (forall i :: 0 <= i < raw.numBytes ==>
          ByteIn(disk', raw, i) == if pos <= i < pos + |data| then data[i - pos] else ByteIn(disk, raw, i))
  }

  /** A header's data sectors are no header and belong to no other header. */
  lemma WrittenElsewhere(fs: Fs, book: Book, disk': Disk, name: string, k: nat, pos: nat, data: seq<byte>, b: string,
                         m: nat)
    requires FsInv(fs, book) && name in book.files && k < |book.files[name]| && book.files[name][k] < NUM_SECTORS
    requires Written(fs.disk, disk', Raw(fs.disk, book.files[name][k]), pos, data)
    requires b in book.files && m < |book.files[b]|
    ensures ChainOk(fs.disk, book.files[b])
    ensures book.files[b][m] < NUM_SECTORS && disk'[book.files[b][m]] == fs.disk[book.files[b][m]]
    ensures b != name || m != k ==> HeaderUntouched(fs.disk, disk', book.files[b], m)
  {
    assert FileOk(fs.disk, book, b);
    OwnersOf(fs, book, name, k);
    OwnersOf(fs, book, b, m);
    var raw, q := Raw(fs.disk, book.files[name][k]), Raw(fs.disk, book.files[b][m]);
    forall i | 0 <= i < raw.numSectors
      ensures raw.dataSectors[i] != book.files[b][m]
    {
      assert book.owner[raw.dataSectors[i]] == DataOf(name, k, i);
    }
    if b != name || m != k {
      forall j | 0 <= j < q.numSectors
        ensures disk'[q.dataSectors[j]] == fs.disk[q.dataSectors[j]]
      {
        forall i | 0 <= i < raw.numSectors
          ensures raw.dataSectors[i] != q.dataSectors[j]
        {
          assert book.owner[raw.dataSectors[i]] == DataOf(name, k, i);
        }
      }
    }
  }

  /** Two disks with the same headers: the invariant does not look at data. */
  lemma SameHeadersKeepInvariant(fs: Fs, book: Book, disk': Disk)
    requires FsInv(fs, book) && DiskShape(disk')
    requires forall b, m :: b in book.files && 0 <= m < |book.files[b]| ==>
               book.files[b][m] < NUM_SECTORS && disk'[book.files[b][m]] == fs.disk[book.files[b][m]]
    ensures FsInv(fs.(disk := disk'), book)
  {
    forall s | s in book.owner
      ensures Backed(disk', book, s)
    {
      assert Backed(fs.disk, book, s);
    }
    forall b | b in book.files
      ensures FileOk(disk', book, b)
    {
      assert FileOk(fs.disk, book, b);
      forall m | 0 <= m < |book.files[b]|
        ensures LinkOk(disk', book.files[b], m) && Owns(disk', book, b, m)
      {
        assert LinkOk(fs.disk, book.files[b], m) && Owns(fs.disk, book, b, m);
        var raw := Raw(fs.disk, book.files[b][m]);
        forall j | 0 <= j < raw.numSectors ensures OwnsData(book, b, m, raw, j) {}
      }
    }
  }

  lemma WriteKeepsInvariant(fs: Fs, book: Book, disk': Disk, name: string, k: nat, pos: nat, data: seq<byte>)
    requires FsInv(fs, book) && name in book.files && k < |book.files[name]| && book.files[name][k] < NUM_SECTORS
    requires Written(fs.disk, disk', Raw(fs.disk, book.files[name][k]), pos, data)
    ensures FsInv(fs.(disk := disk'), book)
  {
    forall b, m | b in book.files && 0 <= m < |book.files[b]|
      ensures book.files[b][m] < NUM_SECTORS && disk'[book.files[b][m]] == fs.disk[book.files[b][m]]
    {
      WrittenElsewhere(fs, book, disk', name, k, pos, data, b, m);
    }
    SameHeadersKeepInvariant(fs, book, disk');
  }

  lemma WriteKeepsOthers(fs: Fs, book: Book, disk': Disk, name: string, k: nat, pos: nat, data: seq<byte>, b: string)
    requires FsInv(fs, book) && name in book.files && k < |book.files[name]| && book.files[name][k] < NUM_SECTORS
    requires Written(fs.disk, disk', Raw(fs.disk, book.files[name][k]), pos, data)
    requires b in book.files && b != name
    ensures FsInv(fs.(disk := disk'), book) && FileBytes(fs.(disk := disk'), book, b) == FileBytes(fs, book, b)
  {
    WriteKeepsInvariant(fs, book, disk', name, k, pos, data);
    assert FileOk(fs.disk, book, b);
    forall m | 0 <= m < |book.files[b]|
      ensures HeaderUntouched(fs.disk, disk', book.files[b], m)
    {
      WrittenElsewhere(fs, book, disk', name, k, pos, data, b, m);
    }
    UntouchedFile(fs.disk, disk', book.files[b]);
  }

  /** Both disks have the same headers along `chain`. */
  ghost predicate SameHeaders(disk: Disk, disk': Disk, chain: seq<nat>) {
    && ChainOk(disk, chain) && ChainOk(disk', chain)
    && forall m :: 0 <= m < |chain| ==> chain[m] < NUM_SECTORS && disk'[chain[m]] == disk[chain[m]]
  }

  lemma SameHeadersSameLength(disk: Disk, disk': Disk, chain: seq<nat>)
    requires SameHeaders(disk, disk', chain)
    ensures Length(disk', chain) == Length(disk, chain)
  {
    assert chain[|chain| - 1] < NUM_SECTORS && disk'[Last(chain)] == disk[Last(chain)];
  }

  /** A position in the file and in the header that holds it. */
  lemma PositionInHeader(x: nat, k: nat, pos: nat, n: nat)
    requires pos + n <= CAPACITY
    ensures k * CAPACITY + pos <= x < k * CAPACITY + pos + n
       <==> x / CAPACITY == k && pos <= x % CAPACITY < pos + n
    ensures x / CAPACITY == k ==> x - (k * CAPACITY + pos) == x % CAPACITY - pos
  {
  }

  lemma WrittenByteAt(disk: Disk, disk': Disk, chain: seq<nat>, k: nat, pos: nat, data: seq<byte>, x: nat)
    requires SameHeaders(disk, disk', chain) && k < |chain| && x < Length(disk, chain)
    requires Written(disk, disk', Raw(disk, chain[k]), pos, data)
    requires x / CAPACITY < |chain| && (x / CAPACITY != k ==> HeaderUntouched(disk, disk', chain, x / CAPACITY))
    ensures Length(disk', chain) == Length(disk, chain)
    ensures
      var p := k * CAPACITY + pos;
      ByteAt(disk', chain, x) == if p <= x < p + |data| then data[x - p] else ByteAt(disk, chain, x)
  {
    SameHeadersSameLength(disk, disk', chain);
    Located(disk, chain, x);
    PositionInHeader(x, k, pos, |data|);
    var m, i := x / CAPACITY, x % CAPACITY;
    var raw := Raw(disk, chain[m]);
    assert LinkOk(disk, chain, m);
    assert Raw(disk', chain[m]) == raw;
    assert ByteAt(disk', chain, x) == ByteIn(disk', raw, i);
    assert ByteAt(disk, chain, x) == ByteIn(disk, raw, i);
  }

  lemma WriteByte(fs: Fs, book: Book, disk': Disk, name: string, k: nat, pos: nat, data: seq<byte>, x: nat)
    requires FsInv(fs, book) && name in book.files && k < |book.files[name]| && book.files[name][k] < NUM_SECTORS
    requires Written(fs.disk, disk', Raw(fs.disk, book.files[name][k]), pos, data)
    requires x < |FileBytes(fs, book, name)|
    ensures ChainOk(disk', book.files[name]) && Length(disk', book.files[name]) == |FileBytes(fs, book, name)|
    ensures
      var p := k * CAPACITY + pos;
      ByteAt(disk', book.files[name], x)
        == if p <= x < p + |data| then data[x - p] else FileBytes(fs, book, name)[x]
  {
    WriteKeepsInvariant(fs, book, disk', name, k, pos, data);
    hide Decode, Backed, Owns;
    var chain := book.files[name];
    assert FileOk(fs.disk, book, name) && FileOk(disk', book, name);
    forall m | 0 <= m < |chain|
      ensures chain[m] < NUM_SECTORS && disk'[chain[m]] == fs.disk[chain[m]]
      ensures m != k ==> HeaderUntouched(fs.disk, disk', chain, m)
    {
      WrittenElsewhere(fs, book, disk', name, k, pos, data, name, m);
    }
    Located(fs.disk, chain, x);
    WrittenByteAt(fs.disk, disk', chain, k, pos, data, x);
  }

  /** The bytes written lie inside the file, and its length stays. */
  lemma WriteLength(fs: Fs, book: Book, disk': Disk, name: string, k: nat, pos: nat, data: seq<byte>)
    requires FsInv(fs, book) && name in book.files && k < |book.files[name]| && book.files[name][k] < NUM_SECTORS
    requires Written(fs.disk, disk', Raw(fs.disk, book.files[name][k]), pos, data)
    ensures FsInv(fs.(disk := disk'), book)
    ensures k * CAPACITY + pos + |data| <= |FileBytes(fs, book, name)| == |FileBytes(fs.(disk := disk'), book, name)|
  {
    WriteKeepsInvariant(fs, book, disk', name, k, pos, data);
    hide Decode, Backed, Owns;
    var last := |book.files[name]| - 1;
    OwnersOf(fs, book, name, k);
    OwnersOf(fs, book, name, last);
    WrittenElsewhere(fs, book, disk', name, k, pos, data, name, last);
  }

  lemma SpliceBytes(before: seq<byte>, after: seq<byte>, p: nat, data: seq<byte>)
    requires p + |data| <= |before| == |after|
    requires forall x :: 0 <= x < |before| ==> after[x] == if p <= x < p + |data| then data[x - p] else before[x]
    ensures after == Splice(before, p, data)
  {
    assert after[..p] == before[..p];
    assert after[p..p + |data|] == data;
    assert after[p + |data|..] == before[p + |data|..];
  }

  /** Overwriting bytes of one header splices them into that file and into nothing else. */
  lemma WriteIsSplice(fs: Fs, book: Book, disk': Disk, name: string, k: nat, pos: nat, data: seq<byte>)
    requires FsInv(fs, book) && name in book.files && k < |book.files[name]| && book.files[name][k] < NUM_SECTORS
    requires Written(fs.disk, disk', Raw(fs.disk, book.files[name][k]), pos, data)
    ensures FsInv(fs.(disk := disk'), book)
    ensures k * CAPACITY + pos + |data| <= |FileBytes(fs, book, name)|
    ensures FileBytes(fs.(disk := disk'), book, name) == Splice(FileBytes(fs, book, name), k * CAPACITY + pos, data)
  {
    WriteLength(fs, book, disk', name, k, pos, data);
    hide Decode, Backed, FileOk, Written, Splice, Length, ByteAt, Raw;
    var before, after := FileBytes(fs, book, name), FileBytes(fs.(disk := disk'), book, name);
    var p := k * CAPACITY + pos;
    forall x | 0 <= x < |before|
      ensures after[x] == if p <= x < p + |data| then data[x - p] else before[x]
    {
      WriteByte(fs, book, disk', name, k, pos, data, x);
    }
    SpliceBytes(before, after, p, data);
  }

  // ---------- giving the last header more sectors ----------

  /** `taken` are sectors that nobody owns, all different, marked by now. */
  ghost predicate Available(book: Book, marks: seq<bool>, taken: seq<nat>) {
    && |marks| == NUM_SECTORS
    && (forall i :: 0 <= i < |taken| ==> taken[i] < NUM_SECTORS && taken[i] !in book.owner && marks[taken[i]])
    && (forall i, j :: 0 <= i < j < |taken| ==> taken[i] != taken[j])
  }

  /** The owners after `taken` became data sectors `base`, `base + 1`, ... of header `k` of `name`. */
  ghost function WithData(owner: map<nat, Owner>, name: string, k: nat, base: nat, taken: seq<nat>): map<nat, Owner> {
    map s | s in owner.Keys + (set t | t in taken) ::
      if s in owner then owner[s]
      else
        var j :| 0 <= j < |taken| && taken[j] == s;
        DataOf(name, k, base + j)
  }

  lemma WithDataAt(book: Book, marks: seq<bool>, name: string, k: nat, base: nat, taken: seq<nat>, i: nat)
    requires Available(book, marks, taken) && i < |taken|
    ensures taken[i] in WithData(book.owner, name, k, base, taken)
    ensures WithData(book.owner, name, k, base, taken)[taken[i]] == DataOf(name, k, base + i)
  {
    assert taken[i] in taken;
  }

  /** `raw` grown by `n` bytes, with `taken` for its new sectors. */
  ghost predicate Grown(raw: RawHeader, raw': RawHeader, n: nat, taken: seq<nat>) {
    && HeaderOk(raw) && Encodable(raw') && raw'.next == raw.next
    && raw'.numBytes == raw.numBytes + n <= CAPACITY
    && raw'.numSectors == DivRoundUp(raw'.numBytes, SECTOR_SIZE) == raw.numSectors + |taken|
    && (forall j :: 0 <= j < raw.numSectors ==> raw'.dataSectors[j] == raw.dataSectors[j])
    && (forall j :: 0 <= j < |taken| ==>
      raw.numSectors + j < NUM_DIRECT && raw'.dataSectors[raw.numSectors + j] == taken[j])
  }

  ghost predicate CanGrow(fs: Fs, book: Book, name: string, raw': RawHeader, n: nat, taken: seq<nat>,
                          marks': seq<bool>) {
    && FsInv(fs, book) && name in book.files && book.files[name] != []
    && Last(book.files[name]) < NUM_SECTORS
    && Grown(Raw(fs.disk, Last(book.files[name])), raw', n, taken)
    && Available(book, marks', taken)
    && (forall s :: 0 <= s < NUM_SECTORS && fs.marks[s] ==> marks'[s])
  }

  ghost function GrowBook(fs: Fs, book: Book, name: string, taken: seq<nat>): Book
    requires DiskShape(fs.disk) && name in book.files && book.files[name] != [] && Last(book.files[name]) < NUM_SECTORS
  {
    book.(owner := WithData(book.owner, name, |book.files[name]| - 1, Raw(fs.disk, Last(book.files[name])).numSectors,
      taken))
  }

  function GrowFs(fs: Fs, h: nat, raw': RawHeader, marks': seq<bool>): Fs
    requires DiskShape(fs.disk) && h < NUM_SECTORS && |raw'.dataSectors| == NUM_DIRECT
  {
    Fs(fs.disk[h := Encode(raw')], marks')
  }

  /** Only the grown header's own sector changes. */
  lemma GrowFrame(fs: Fs, book: Book, name: string, raw': RawHeader, n: nat, taken: seq<nat>, marks': seq<bool>,
                  b: string, m: nat)
    requires CanGrow(fs, book, name, raw', n, taken, marks') && b in book.files && m < |book.files[b]|
    ensures ChainOk(fs.disk, book.files[b])
    ensures
      var fs', g := GrowFs(fs, Last(book.files[name]), raw', marks'), book.files[b][m];
      && Shape(fs') && g < NUM_SECTORS
      && (b == name && m + 1 == |book.files[b]| ==> Raw(fs'.disk, g) == raw')
      && (b != name || m + 1 != |book.files[b]| ==> HeaderUntouched(fs.disk, fs'.disk, book.files[b], m))
      && var raw := Raw(fs.disk, g);
         HeaderOk(raw) && forall j :: 0 <= j < raw.numSectors ==>
           fs'.disk[raw.dataSectors[j]] == fs.disk[raw.dataSectors[j]]
  {
    var h := Last(book.files[name]);
    HeaderRoundTrip(raw');
    OwnersOf(fs, book, name, |book.files[name]| - 1);
    OwnersOf(fs, book, b, m);
    assert FileOk(fs.disk, book, b);
    var raw := Raw(fs.disk, book.files[b][m]);
    forall j | 0 <= j < raw.numSectors
      ensures raw.dataSectors[j] != h
    {
      assert book.owner[raw.dataSectors[j]] == DataOf(b, m, j);
    }
  }

  /** Old and new data sectors of the grown header. */
  lemma GrownOwnsData(fs: Fs, book: Book, name: string, raw': RawHeader, n: nat, taken: seq<nat>, marks': seq<bool>,
                      j: nat)
    requires CanGrow(fs, book, name, raw', n, taken, marks') && j < raw'.numSectors && j < NUM_DIRECT
    ensures OwnsData(GrowBook(fs, book, name, taken), name, |book.files[name]| - 1, raw', j)
    ensures raw'.dataSectors[j] < NUM_SECTORS
  {
    var m := |book.files[name]| - 1;
    OwnersOf(fs, book, name, m);
    hide Decode, Encode, Backed, FileOk;
    var raw := Raw(fs.disk, book.files[name][m]);
    if j < raw.numSectors {
      assert raw.dataSectors[j] in book.owner;
    } else {
      WithDataAt(book, marks', name, m, raw.numSectors, taken, j - raw.numSectors);
      assert raw'.dataSectors[raw.numSectors + (j - raw.numSectors)] == taken[j - raw.numSectors];
    }
  }

  lemma GrowOwns(fs: Fs, book: Book, name: string, raw': RawHeader, n: nat, taken: seq<nat>, marks': seq<bool>,
                 b: string, m: nat)
    requires CanGrow(fs, book, name, raw', n, taken, marks') && b in book.files && m < |book.files[b]|
    ensures
      var fs', book' := GrowFs(fs, Last(book.files[name]), raw', marks'), GrowBook(fs, book, name, taken);
      Shape(fs') && LinkOk(fs'.disk, book.files[b], m) && Owns(fs'.disk, book', b, m)
  {
    var fs', book' := GrowFs(fs, Last(book.files[name]), raw', marks'), GrowBook(fs, book, name, taken);
    GrowFrame(fs, book, name, raw', n, taken, marks', b, m);
    OwnersOf(fs, book, b, m);
    hide Decode, Encode, Backed, FileOk;
    var raw := Raw(fs.disk, book.files[b][m]);
    if b == name && m + 1 == |book.files[b]| {
      forall j | 0 <= j < raw'.numSectors
        ensures OwnsData(book', b, m, raw', j)
        ensures raw'.dataSectors[j] < NUM_SECTORS
      {
        GrownOwnsData(fs, book, name, raw', n, taken, marks', j);
      }
    } else {
      assert HeaderUntouched(fs.disk, fs'.disk, book.files[b], m);
      forall j | 0 <= j < raw.numSectors
        ensures OwnsData(book', b, m, raw, j)
      {
        assert raw.dataSectors[j] in book.owner;
      }
    }
  }

  /** Any header after the growth: what it had, it still has, and the sectors hold the same. */
  ghost predicate Extends(disk: Disk, disk': Disk, g: nat)
    requires DiskShape(disk) && DiskShape(disk') && g < NUM_SECTORS
  {
    var raw, raw' := Raw(disk, g), Raw(disk', g);
    && HeaderOk(raw) && raw.numSectors <= raw'.numSectors <= NUM_DIRECT
    && forall j :: 0 <= j < raw.numSectors ==>
         raw'.dataSectors[j] == raw.dataSectors[j] && disk'[raw.dataSectors[j]] == disk[raw.dataSectors[j]]
  }

  lemma GrowOnlyExtends(fs: Fs, book: Book, name: string, raw': RawHeader, n: nat, taken: seq<nat>, marks': seq<bool>,
                        b: string, m: nat)
    requires CanGrow(fs, book, name, raw', n, taken, marks') && b in book.files && m < |book.files[b]|
    ensures book.files[b][m] < NUM_SECTORS && Shape(GrowFs(fs, Last(book.files[name]), raw', marks'))
    ensures Extends(fs.disk, GrowFs(fs, Last(book.files[name]), raw', marks').disk, book.files[b][m])
  {
    GrowFrame(fs, book, name, raw', n, taken, marks', b, m);
  }

  lemma GrowBackedOld(fs: Fs, book: Book, name: string, raw': RawHeader, n: nat, taken: seq<nat>, marks': seq<bool>,
                      s: nat)
    requires CanGrow(fs, book, name, raw', n, taken, marks') && s in book.owner
    ensures
      var fs', book' := GrowFs(fs, Last(book.files[name]), raw', marks'), GrowBook(fs, book, name, taken);
      Shape(fs') && s in book'.owner && s < NUM_SECTORS && marks'[s] && Backed(fs'.disk, book', s)
  {
    assert Backed(fs.disk, book, s);
    var book' := GrowBook(fs, book, name, taken);
    assert s in book'.owner && book'.owner[s] == book.owner[s];
    GrowOnlyExtends(fs, book, name, raw', n, taken, marks', name, 0);
    if book.owner[s].DataOf? {
      var DataOf(b, m, j) := book.owner[s];
      GrowOnlyExtends(fs, book, name, raw', n, taken, marks', b, m);
    }
  }

  lemma GrowBackedNew(fs: Fs, book: Book, name: string, raw': RawHeader, n: nat, taken: seq<nat>, marks': seq<bool>,
                      i: nat)
    requires CanGrow(fs, book, name, raw', n, taken, marks') && i < |taken|
    ensures
      var fs', book', s := GrowFs(fs, Last(book.files[name]), raw', marks'), GrowBook(fs, book, name, taken), taken[i];
      Shape(fs') && s in book'.owner && s < NUM_SECTORS && marks'[s] && Backed(fs'.disk, book', s)
  {
    var k := |book.files[name]| - 1;
    GrowFrame(fs, book, name, raw', n, taken, marks', name, k);
    WithDataAt(book, marks', name, k, Raw(fs.disk, Last(book.files[name])).numSectors, taken, i);
  }

  lemma GrowKeepsInvariant(fs: Fs, book: Book, name: string, raw': RawHeader, n: nat, taken: seq<nat>,
                           marks': seq<bool>)
    requires CanGrow(fs, book, name, raw', n, taken, marks')
    ensures FsInv(GrowFs(fs, Last(book.files[name]), raw', marks'), GrowBook(fs, book, name, taken))
  {
    var fs', book' := GrowFs(fs, Last(book.files[name]), raw', marks'), GrowBook(fs, book, name, taken);
    GrowFrame(fs, book, name, raw', n, taken, marks', name, 0);
    forall s | s in book'.owner
      ensures s < NUM_SECTORS && fs'.marks[s] && Backed(fs'.disk, book', s)
    {
      if s in book.owner {
        GrowBackedOld(fs, book, name, raw', n, taken, marks', s);
      } else {
        var i :| 0 <= i < |taken| && taken[i] == s;
        GrowBackedNew(fs, book, name, raw', n, taken, marks', i);
      }
    }
    forall b | b in book'.files
      ensures FileOk(fs'.disk, book', b)
    {
      assert FileOk(fs.disk, book, b);
      forall m | 0 <= m < |book.files[b]|
        ensures LinkOk(fs'.disk, book.files[b], m) && Owns(fs'.disk, book', b, m)
      {
        GrowOwns(fs, book, name, raw', n, taken, marks', b, m);
      }
    }
  }

  lemma GrowLength(fs: Fs, book: Book, name: string, raw': RawHeader, n: nat, taken: seq<nat>, marks': seq<bool>)
    requires CanGrow(fs, book, name, raw', n, taken, marks')
    ensures
      var fs', book' := GrowFs(fs, Last(book.files[name]), raw', marks'), GrowBook(fs, book, name, taken);
      && FsInv(fs', book') && book'.files == book.files
      && |FileBytes(fs', book', name)| == |FileBytes(fs, book, name)| + n
  {
    GrowKeepsInvariant(fs, book, name, raw', n, taken, marks');
    GrowFrame(fs, book, name, raw', n, taken, marks', name, |book.files[name]| - 1);
  }

  lemma GrowByte(fs: Fs, book: Book, name: string, raw': RawHeader, n: nat, taken: seq<nat>, marks': seq<bool>, x: nat)
    requires CanGrow(fs, book, name, raw', n, taken, marks') && x < |FileBytes(fs, book, name)|
    ensures
      var fs', book' := GrowFs(fs, Last(book.files[name]), raw', marks'), GrowBook(fs, book, name, taken);
      && FsInv(fs', book') && x < |FileBytes(fs', book', name)|
      && FileBytes(fs', book', name)[x] == FileBytes(fs, book, name)[x]
  {
    hide Decode, Backed, Owns, WithData, Encode, Available, DivRoundUp;
    GrowLength(fs, book, name, raw', n, taken, marks');
    var fs', book' := GrowFs(fs, Last(book.files[name]), raw', marks'), GrowBook(fs, book, name, taken);
    var chain := book.files[name];
    assert FileOk(fs.disk, book, name) && FileOk(fs'.disk, book', name);
    Located(fs.disk, chain, x);
    GrowOnlyExtends(fs, book, name, raw', n, taken, marks', name, x / CAPACITY);
    GrownByte(fs.disk, fs'.disk, chain, x);
    assert FileBytes(fs, book, name)[x] == ByteAt(fs.disk, chain, x);
    assert FileBytes(fs', book', name)[x] == ByteAt(fs'.disk, chain, x);
  }

  /** Growing a header adds `n` bytes at the end of its file and changes no byte of it. */
  lemma GrowExtends(fs: Fs, book: Book, name: string, raw': RawHeader, n: nat, taken: seq<nat>, marks': seq<bool>)
    requires CanGrow(fs, book, name, raw', n, taken, marks')
    ensures
      var fs', book' := GrowFs(fs, Last(book.files[name]), raw', marks'), GrowBook(fs, book, name, taken);
      && FsInv(fs', book')
      && |FileBytes(fs', book', name)| == |FileBytes(fs, book, name)| + n
      && FileBytes(fs, book, name) <= FileBytes(fs', book', name)
  {
    GrowLength(fs, book, name, raw', n, taken, marks');
    var fs', book' := GrowFs(fs, Last(book.files[name]), raw', marks'), GrowBook(fs, book, name, taken);
    var before, after := FileBytes(fs, book, name), FileBytes(fs', book', name);
    forall x | 0 <= x < |before|
      ensures after[x] == before[x]
    {
      GrowByte(fs, book, name, raw', n, taken, marks', x);
    }
  }

  lemma GrownByte(disk: Disk, disk': Disk, chain: seq<nat>, x: nat)
    requires ChainOk(disk, chain) && ChainOk(disk', chain) && x < Length(disk, chain) <= Length(disk', chain)
    requires x / CAPACITY < |chain| && chain[x / CAPACITY] < NUM_SECTORS
    requires Extends(disk, disk', chain[x / CAPACITY])
    ensures ByteAt(disk', chain, x) == ByteAt(disk, chain, x)
  {
    Located(disk, chain, x);
    Located(disk', chain, x);
  }

  lemma GrowKeepsOthers(fs: Fs, book: Book, name: string, raw': RawHeader, n: nat, taken: seq<nat>, marks': seq<bool>,
                        b: string)
    requires CanGrow(fs, book, name, raw', n, taken, marks') && b in book.files && b != name
    ensures
      var fs', book' := GrowFs(fs, Last(book.files[name]), raw', marks'), GrowBook(fs, book, name, taken);
      FsInv(fs', book') && FileBytes(fs', book', b) == FileBytes(fs, book, b)
  {
    GrowKeepsInvariant(fs, book, name, raw', n, taken, marks');
    assert FileOk(fs.disk, book, b);
    var fs' := GrowFs(fs, Last(book.files[name]), raw', marks');
    forall m | 0 <= m < |book.files[b]|
      ensures HeaderUntouched(fs.disk, fs'.disk, book.files[b], m)
    {
      GrowFrame(fs, book, name, raw', n, taken, marks', b, m);
    }
    UntouchedFile(fs.disk, fs'.disk, book.files[b]);
  }

  // ---------- linking an empty header behind a full one ----------

  /** A header with nothing in it; `garbage` is what its table happens to hold. */
  function EmptyHeader(garbage: seq<nat>): RawHeader {
    RawHeader(0, 0, garbage, 0)
  }

  ghost predicate CanLink(fs: Fs, book: Book, name: string, g: nat, garbage: seq<nat>) {
    && FsInv(fs, book) && name in book.files && book.files[name] != [] && Last(book.files[name]) < NUM_SECTORS
    && Raw(fs.disk, Last(book.files[name])).numBytes == CAPACITY
    && g < NUM_SECTORS && g !in book.owner && fs.marks[g]
    && Encodable(EmptyHeader(garbage))
  }

  function LinkFs(fs: Fs, h: nat, g: nat, garbage: seq<nat>): Fs
    requires Shape(fs) && h < NUM_SECTORS && g < NUM_SECTORS && |garbage| == NUM_DIRECT
  {
    fs.(disk := fs.disk[g := Encode(EmptyHeader(garbage))][h := Encode(Raw(fs.disk, h).(next := g))])
  }

  ghost function LinkBook(book: Book, name: string, g: nat): Book
    requires name in book.files
  {
    Book(book.files[name := book.files[name] + [g]], book.owner[g := HeaderOf(name, |book.files[name]|)])
  }

  lemma LinkHeaders(fs: Fs, book: Book, name: string, g: nat, garbage: seq<nat>)
    requires CanLink(fs, book, name, g, garbage)
    ensures
      var h := Last(book.files[name]);
      var fs' := LinkFs(fs, h, g, garbage);
      && Shape(fs') && h != g && g > 0
      && Raw(fs'.disk, g) == EmptyHeader(garbage)
      && Raw(fs'.disk, h) == Raw(fs.disk, h).(next := g)
  {
    var h := Last(book.files[name]);
    OwnersOf(fs, book, name, |book.files[name]| - 1);
    HeaderRoundTrip(EmptyHeader(garbage));
    DecodedIsEncodable(fs.disk[h]);
    HeaderRoundTrip(Raw(fs.disk, h).(next := g));
  }

  /** Existing headers keep everything but the one link; existing data is untouched. */
  lemma LinkFrame(fs: Fs, book: Book, name: string, g: nat, garbage: seq<nat>, b: string, m: nat)
    requires CanLink(fs, book, name, g, garbage) && b in book.files && m < |book.files[b]|
    ensures ChainOk(fs.disk, book.files[b])
    ensures
      var fs', c := LinkFs(fs, Last(book.files[name]), g, garbage), book.files[b][m];
      && Shape(fs') && c < NUM_SECTORS && c != g
      && (b == name && m + 1 == |book.files[b]| ==> Raw(fs'.disk, c) == Raw(fs.disk, c).(next := g))
      && (b != name || m + 1 != |book.files[b]| ==> HeaderUntouched(fs.disk, fs'.disk, book.files[b], m))
      && Extends(fs.disk, fs'.disk, c)
      && Raw(fs'.disk, c).numSectors == Raw(fs.disk, c).numSectors
  {
    var h := Last(book.files[name]);
    LinkHeaders(fs, book, name, g, garbage);
    OwnersOf(fs, book, name, |book.files[name]| - 1);
    OwnersOf(fs, book, b, m);
    assert FileOk(fs.disk, book, b);
    var raw := Raw(fs.disk, book.files[b][m]);
    forall j | 0 <= j < raw.numSectors
      ensures raw.dataSectors[j] != h && raw.dataSectors[j] != g
    {
      assert book.owner[raw.dataSectors[j]] == DataOf(b, m, j);
    }
  }

  lemma LinkOwns(fs: Fs, book: Book, name: string, g: nat, garbage: seq<nat>, b: string, m: nat)
    requires CanLink(fs, book, name, g, garbage) && b in book.files && m < |LinkBook(book, name, g).files[b]|
    ensures
      var fs', book' := LinkFs(fs, Last(book.files[name]), g, garbage), LinkBook(book, name, g);
      Shape(fs') && LinkOk(fs'.disk, book'.files[b], m) && Owns(fs'.disk, book', b, m)
  {
    var fs', book' := LinkFs(fs, Last(book.files[name]), g, garbage), LinkBook(book, name, g);
    LinkHeaders(fs, book, name, g, garbage);
    if m < |book.files[b]| {
      LinkFrame(fs, book, name, g, garbage, b, m);
      OwnersOf(fs, book, b, m);
      var raw := Raw(fs.disk, book.files[b][m]);
      var raw' := Raw(fs'.disk, book.files[b][m]);
      forall j | 0 <= j < raw.numSectors
        ensures OwnsData(book', b, m, raw', j)
      {
        assert raw.dataSectors[j] in book.owner;
      }
    }
  }

  lemma LinkBacked(fs: Fs, book: Book, name: string, g: nat, garbage: seq<nat>, s: nat)
    requires CanLink(fs, book, name, g, garbage) && s in LinkBook(book, name, g).owner
    ensures
      var fs', book' := LinkFs(fs, Last(book.files[name]), g, garbage), LinkBook(book, name, g);
      Shape(fs') && s < NUM_SECTORS && fs'.marks[s] && Backed(fs'.disk, book', s)
  {
    LinkHeaders(fs, book, name, g, garbage);
    if s != g {
      assert Backed(fs.disk, book, s);
      if book.owner[s].DataOf? {
        LinkFrame(fs, book, name, g, garbage, book.owner[s].name, book.owner[s].k);
      }
    }
  }

  lemma LinkKeepsInvariant(fs: Fs, book: Book, name: string, g: nat, garbage: seq<nat>)
    requires CanLink(fs, book, name, g, garbage)
    ensures FsInv(LinkFs(fs, Last(book.files[name]), g, garbage), LinkBook(book, name, g))
  {
    var fs', book' := LinkFs(fs, Last(book.files[name]), g, garbage), LinkBook(book, name, g);
    LinkHeaders(fs, book, name, g, garbage);
    forall s | s in book'.owner
      ensures s < NUM_SECTORS && fs'.marks[s] && Backed(fs'.disk, book', s)
    {
      LinkBacked(fs, book, name, g, garbage, s);
    }
    forall b | b in book'.files
      ensures FileOk(fs'.disk, book', b)
    {
      assert b != name ==> FileOk(fs.disk, book, b);
      forall m | 0 <= m < |book'.files[b]|
        ensures LinkOk(fs'.disk, book'.files[b], m) && Owns(fs'.disk, book', b, m)
      {
        LinkOwns(fs, book, name, g, garbage, b, m);
      }
    }
  }

  lemma LinkLength(fs: Fs, book: Book, name: string, g: nat, garbage: seq<nat>)
    requires CanLink(fs, book, name, g, garbage)
    ensures
      var fs', book' := LinkFs(fs, Last(book.files[name]), g, garbage), LinkBook(book, name, g);
      FsInv(fs', book') && |FileBytes(fs', book', name)| == |FileBytes(fs, book, name)|
  {
    LinkKeepsInvariant(fs, book, name, g, garbage);
    LinkHeaders(fs, book, name, g, garbage);
  }

  /** An empty header linked behind a full one changes the contents of no file. */
  lemma LinkKeepsContents(fs: Fs, book: Book, name: string, g: nat, garbage: seq<nat>, b: string)
    requires CanLink(fs, book, name, g, garbage) && b in book.files
    ensures
      var fs', book' := LinkFs(fs, Last(book.files[name]), g, garbage), LinkBook(book, name, g);
      FsInv(fs', book') && FileBytes(fs', book', b) == FileBytes(fs, book, b)
  {
    LinkLength(fs, book, name, g, garbage);
    var fs', book' := LinkFs(fs, Last(book.files[name]), g, garbage), LinkBook(book, name, g);
    assert FileOk(fs.disk, book, b) && FileOk(fs'.disk, book', b);
    if b != name {
      forall m | 0 <= m < |book.files[b]|
        ensures HeaderUntouched(fs.disk, fs'.disk, book.files[b], m)
      {
        LinkFrame(fs, book, name, g, garbage, b, m);
      }
      UntouchedFile(fs.disk, fs'.disk, book.files[b]);
    } else {
      var chain, chain' := book.files[b], book'.files[b];
      forall x | 0 <= x < Length(fs.disk, chain)
        ensures ByteAt(fs.disk, chain, x) == ByteAt(fs'.disk, chain', x)
      {
        Located(fs.disk, chain, x);
        LinkFrame(fs, book, name, g, garbage, b, x / CAPACITY);
        LinkedByte(fs.disk, fs'.disk, chain, chain', x);
      }
      SameContents(fs.disk, chain, fs'.disk, chain');
    }
  }

  lemma LinkedByte(disk: Disk, disk': Disk, chain: seq<nat>, chain': seq<nat>, x: nat)
    requires ChainOk(disk, chain) && ChainOk(disk', chain') && x < Length(disk, chain) == Length(disk', chain')
    requires x / CAPACITY < |chain| && x / CAPACITY < |chain'|
      && chain[x / CAPACITY] == chain'[x / CAPACITY] < NUM_SECTORS
    requires Extends(disk, disk', chain[x / CAPACITY])
    ensures ByteAt(disk', chain', x) == ByteAt(disk, chain, x)
  {
    Located(disk, chain, x);
    Located(disk', chain', x);
  }

  // ---------- creating and removing files ----------

  ghost predicate CanCreate(fs: Fs, book: Book, name: string, g: nat, garbage: seq<nat>) {
    && FsInv(fs, book) && name !in book.files
    && g < NUM_SECTORS && !fs.marks[g] && Encodable(EmptyHeader(garbage))
  }

  function CreateFs(fs: Fs, g: nat, garbage: seq<nat>): Fs
    requires Shape(fs) && g < NUM_SECTORS && |garbage| == NUM_DIRECT
  {
    Fs(fs.disk[g := Encode(EmptyHeader(garbage))], fs.marks[g := true])
  }

  ghost function CreateBook(book: Book, name: string, g: nat): Book {
    Book(book.files[name := [g]], book.owner[g := HeaderOf(name, 0)])
  }

  /** A new file is empty, owns its header sector, and disturbs nothing. */
  lemma CreateKeepsInvariant(fs: Fs, book: Book, name: string, g: nat, garbage: seq<nat>)
    requires CanCreate(fs, book, name, g, garbage)
    ensures
      var fs', book' := CreateFs(fs, g, garbage), CreateBook(book, name, g);
      && FsInv(fs', book')
      && FileBytes(fs', book', name) == []
      && forall b :: b in book.files ==> FileBytes(fs', book', b) == FileBytes(fs, book, b)
  {
    var fs', book' := CreateFs(fs, g, garbage), CreateBook(book, name, g);
    HeaderRoundTrip(EmptyHeader(garbage));
    assert g !in book.owner;
    forall b | b in book.files
      ensures FileOk(fs'.disk, book', b) && Contents(fs'.disk, book.files[b]) == FileBytes(fs, book, b)
    {
      CreateFrame(fs, book, name, g, garbage, b);
    }
    assert LinkOk(fs'.disk, [g], 0) && Owns(fs'.disk, book', name, 0);
    forall s | s in book'.owner
      ensures s < NUM_SECTORS && fs'.marks[s] && Backed(fs'.disk, book', s)
    {
      if s != g {
        assert Backed(fs.disk, book, s);
        if book.owner[s].DataOf? {
          OwnersOf(fs, book, book.owner[s].name, book.owner[s].k);
        }
      }
    }
  }

  lemma CreateFrame(fs: Fs, book: Book, name: string, g: nat, garbage: seq<nat>, b: string)
    requires CanCreate(fs, book, name, g, garbage) && b in book.files
    ensures
      var fs', book' := CreateFs(fs, g, garbage), CreateBook(book, name, g);
      && DiskShape(fs'.disk) && FileOk(fs'.disk, book', b)
      && Contents(fs'.disk, book.files[b]) == FileBytes(fs, book, b)
  {
    var fs', book' := CreateFs(fs, g, garbage), CreateBook(book, name, g);
    assert FileOk(fs.disk, book, b);
    forall m | 0 <= m < |book.files[b]|
      ensures HeaderUntouched(fs.disk, fs'.disk, book.files[b], m) && Owns(fs'.disk, book', b, m)
    {
      OwnersOf(fs, book, b, m);
      var raw := Raw(fs.disk, book.files[b][m]);
      forall j | 0 <= j < raw.numSectors
        ensures OwnsData(book', b, m, raw, j) && raw.dataSectors[j] != g
      {
        assert raw.dataSectors[j] in book.owner;
      }
    }
    UntouchedFile(fs.disk, fs'.disk, book.files[b]);
  }

  ghost function RemoveBook(book: Book, name: string): Book {
    Book(book.files - {name}, book.owner - SectorsOf(book, name))
  }

  /** With a file gone from the directory, its sectors may be unmarked; everyone else is as before. */
  lemma RemoveKeepsInvariant(fs: Fs, book: Book, name: string, marks': seq<bool>)
    requires FsInv(fs, book) && name in book.files && |marks'| == NUM_SECTORS
    requires forall s :: 0 <= s < NUM_SECTORS && s !in SectorsOf(book, name) ==> marks'[s] == fs.marks[s]
    ensures FsInv(fs.(marks := marks'), RemoveBook(book, name))
    ensures forall b :: b in book.files && b != name ==>
              FileBytes(fs.(marks := marks'), RemoveBook(book, name), b) == FileBytes(fs, book, b)
  {
    var fs', book' := fs.(marks := marks'), RemoveBook(book, name);
    forall s | s in book'.owner
      ensures s < NUM_SECTORS && fs'.marks[s] && Backed(fs'.disk, book', s)
    {
      assert Backed(fs.disk, book, s);
    }
    forall b | b in book'.files
      ensures FileOk(fs'.disk, book', b)
    {
      assert FileOk(fs.disk, book, b);
      forall m | 0 <= m < |book.files[b]|
        ensures Owns(fs'.disk, book', b, m)
      {
        OwnersOf(fs, book, b, m);
        var raw := Raw(fs.disk, book.files[b][m]);
        forall j | 0 <= j < raw.numSectors
          ensures OwnsData(book', b, m, raw, j)
        {
          assert raw.dataSectors[j] in book.owner;
        }
      }
    }
  }

  // ---------- the steps, seen from outside ----------

  /** Every file and its bytes: all that a user of the file system can see. */
  ghost function AllFiles(fs: Fs, book: Book): map<string, seq<byte>>
    requires FsInv(fs, book)
  {
    map name | name in book.files :: FileBytes(fs, book, name)
  }

  lemma WriteSeen(fs: Fs, book: Book, disk': Disk, name: string, k: nat, pos: nat, data: seq<byte>)
    requires FsInv(fs, book) && name in book.files && k < |book.files[name]| && book.files[name][k] < NUM_SECTORS
    requires Written(fs.disk, disk', Raw(fs.disk, book.files[name][k]), pos, data)
    ensures FsInv(fs.(disk := disk'), book)
    ensures k * CAPACITY + pos + |data| <= |FileBytes(fs, book, name)|
    ensures AllFiles(fs.(disk := disk'), book)
         == AllFiles(fs, book)[name := Splice(FileBytes(fs, book, name), k * CAPACITY + pos, data)]
    ensures disk'[book.files[name][k]] == fs.disk[book.files[name][k]]
  {
    WriteIsSplice(fs, book, disk', name, k, pos, data);
    WrittenElsewhere(fs, book, disk', name, k, pos, data, name, k);
    forall b | b in book.files && b != name
      ensures FileBytes(fs.(disk := disk'), book, b) == FileBytes(fs, book, b)
    {
      WriteKeepsOthers(fs, book, disk', name, k, pos, data, b);
    }
  }

  lemma GrowSeen(fs: Fs, book: Book, name: string, raw': RawHeader, n: nat, taken: seq<nat>, marks': seq<bool>)
    requires CanGrow(fs, book, name, raw', n, taken, marks')
    ensures
      var h := Last(book.files[name]);
      var fs', book' := GrowFs(fs, h, raw', marks'), GrowBook(fs, book, name, taken);
      && FsInv(fs', book') && book'.files == book.files
      && Raw(fs'.disk, h) == raw'
      && var bytes := FileBytes(fs', book', name);
         && |bytes| == |FileBytes(fs, book, name)| + n && FileBytes(fs, book, name) <= bytes
         && AllFiles(fs', book') == AllFiles(fs, book)[name := bytes]
  {
    hide Decode, Backed, FileOk, WithData, Encode, Grown, Available, DivRoundUp, Contents, HeaderOk;
    GrowExtends(fs, book, name, raw', n, taken, marks');
    GrowFrame(fs, book, name, raw', n, taken, marks', name, |book.files[name]| - 1);
    var fs', book' := GrowFs(fs, Last(book.files[name]), raw', marks'), GrowBook(fs, book, name, taken);
    forall b | b in book.files && b != name
      ensures FileBytes(fs', book', b) == FileBytes(fs, book, b)
    {
      GrowKeepsOthers(fs, book, name, raw', n, taken, marks', b);
    }
  }

  lemma LinkSeen(fs: Fs, book: Book, name: string, g: nat, garbage: seq<nat>)
    requires CanLink(fs, book, name, g, garbage)
    ensures
      var fs', book' := LinkFs(fs, Last(book.files[name]), g, garbage), LinkBook(book, name, g);
      && FsInv(fs', book') && AllFiles(fs', book') == AllFiles(fs, book)
      && Raw(fs'.disk, g) == EmptyHeader(garbage)
  {
    LinkHeaders(fs, book, name, g, garbage);
    LinkKeepsInvariant(fs, book, name, g, garbage);
    var fs', book' := LinkFs(fs, Last(book.files[name]), g, garbage), LinkBook(book, name, g);
    forall b | b in book.files
      ensures FileBytes(fs', book', b) == FileBytes(fs, book, b)
    {
      LinkKeepsContents(fs, book, name, g, garbage, b);
    }
  }

  lemma CreateSeen(fs: Fs, book: Book, name: string, g: nat, garbage: seq<nat>)
    requires CanCreate(fs, book, name, g, garbage)
    ensures
      var fs', book' := CreateFs(fs, g, garbage), CreateBook(book, name, g);
      FsInv(fs', book') && AllFiles(fs', book') == AllFiles(fs, book)[name := []]
  {
    CreateKeepsInvariant(fs, book, name, g, garbage);
  }

  lemma RemoveSeen(fs: Fs, book: Book, name: string, marks': seq<bool>)
    requires FsInv(fs, book) && name in book.files && |marks'| == NUM_SECTORS
    requires forall s :: 0 <= s < NUM_SECTORS && s !in SectorsOf(book, name) ==> marks'[s] == fs.marks[s]
    ensures FsInv(fs.(marks := marks'), RemoveBook(book, name))
    ensures AllFiles(fs.(marks := marks'), RemoveBook(book, name)) == AllFiles(fs, book) - {name}
  {
    RemoveKeepsInvariant(fs, book, name, marks');
  }

  /** Marking more sectors used is always safe. */
  lemma MoreMarks(fs: Fs, book: Book, marks': seq<bool>)
    requires FsInv(fs, book) && |marks'| == NUM_SECTORS
    requires forall s :: 0 <= s < NUM_SECTORS && fs.marks[s] ==> marks'[s]
    ensures FsInv(fs.(marks := marks'), book) && AllFiles(fs.(marks := marks'), book) == AllFiles(fs, book)
  {
    forall s | s in book.owner
      ensures Backed(fs.disk, book, s) && marks'[s]
    {
    }
    forall name | name in book.files
      ensures FileOk(fs.disk, book, name)
    {
    }
  }
}
