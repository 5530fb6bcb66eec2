/** Laying bytes over a file from a position on, growing it if need be. */
module ByteFiles {
  import opened FlatMemory

  /** `old` with `data` from `p` on: replaced bytes inside, appended bytes at the end. */
  function Lay(old': seq<byte>, p: nat, data: seq<byte>): seq<byte>
    requires p <= |old'|
  {
    old'[..p] + data + (if p + |data| <= |old'| then old'[p + |data|..] else [])
  }

  lemma LayNothing(f: seq<byte>, p: nat)
    requires p <= |f|
    ensures Lay(f, p, []) == f
  {
  }

  /** Two writes in a row are one write. */
  lemma LayTwice(f: seq<byte>, p: nat, a: seq<byte>, b: seq<byte>)
    requires p <= |f|
    ensures Lay(Lay(f, p, a), p + |a|, b) == Lay(f, p, a + b)
  {
  }

  /** Extending first, with anything, and overwriting then comes to the same. */
  lemma LayIsSplice(f: seq<byte>, ext: seq<byte>, p: nat, data: seq<byte>)
    requires p <= |f| && f <= ext
    requires |ext| == if p + |data| <= |f| then |f| else p + |data|
    ensures Splice(ext, p, data) == Lay(f, p, data)
  {
    assert f == ext[..|f|];
  }
}

module FileSystems {
  import opened FlatMemory
  import opened Bitmaps
  import opened FileLayout
  import opened FileOwnership
  import opened FileHeaders
  import opened ByteFiles

  function SectorsFor(n: nat): nat {
    DivRoundUp(n, SECTOR_SIZE)
  }

  function MaxOf(a: nat, b: nat): nat {
    if a < b then b else a
  }

  lemma GrownSectors(whole: nat, n: nat)
    ensures SectorsFor(whole * CAPACITY + n) == whole * NUM_DIRECT + SectorsFor(n)
  {
  }

  /** Sectors taken from the free map have no owner. */
  lemma TakenIsAvailable(fs: Fs, book: Book, marks': seq<bool>, taken: seq<nat>)
    requires FsInv(fs, book) && Takes(fs.marks, marks', taken)
    ensures Available(book, marks', taken)
    ensures forall s :: 0 <= s < NUM_SECTORS && fs.marks[s] ==> marks'[s]
  {
    forall i | 0 <= i < |taken|
      ensures taken[i] < NUM_SECTORS && taken[i] !in book.owner && marks'[taken[i]]
    {
      assert taken[i] in taken;
    }
  }

  /** The effect of `Allocate` on the last header, once header and map are back on disk. */
  lemma GrowTaken(fs: Fs, book: Book, name: string, raw': RawHeader, n: nat, taken: seq<nat>, marks': seq<bool>)
    requires FsInv(fs, book) && name in book.files && book.files[name] != [] && Last(book.files[name]) < NUM_SECTORS
    requires Grown(Raw(fs.disk, Last(book.files[name])), raw', n, taken) && Takes(fs.marks, marks', taken)
    ensures
      var h := Last(book.files[name]);
      var fs', book' := GrowFs(fs, h, raw', marks'), GrowBook(fs, book, name, taken);
      && FsInv(fs', book') && book'.files == book.files
      && Raw(fs'.disk, h) == raw'
      && var bytes := FileBytes(fs', book', name);
         && |bytes| == |FileBytes(fs, book, name)| + n && FileBytes(fs, book, name) <= bytes
         && AllFiles(fs', book') == AllFiles(fs, book)[name := bytes]
  {
    TakenIsAvailable(fs, book, marks', taken);
    GrowSeen(fs, book, name, raw', n, taken, marks');
  }

  /** The disk after a new header `raw'` in sector `g` was written and linked behind header `h`. */
  function Appended(disk: Disk, h: nat, g: nat, raw': RawHeader): Disk
    requires DiskShape(disk) && h < NUM_SECTORS && g < NUM_SECTORS && |raw'.dataSectors| == NUM_DIRECT
  {
    disk[g := Encode(raw')][h := Encode(Raw(disk, h).(next := g))]
  }

  ghost function AppendBook(fs: Fs, book: Book, name: string, g: nat, garbage: seq<nat>, taken: seq<nat>): Book
    requires CanLink(fs, book, name, g, garbage)
  {
    LinkHeaders(fs, book, name, g, garbage);
    GrowBook(LinkFs(fs, Last(book.files[name]), g, garbage), LinkBook(book, name, g), name, taken)
  }

  lemma AppendDisk(fs: Fs, book: Book, name: string, g: nat, garbage: seq<nat>, raw': RawHeader, marks': seq<bool>)
    requires CanLink(fs, book, name, g, garbage) && |raw'.dataSectors| == NUM_DIRECT
    ensures Last(LinkBook(book, name, g).files[name]) == g && Shape(LinkFs(fs, Last(book.files[name]), g, garbage))
    ensures Fs(Appended(fs.disk, Last(book.files[name]), g, raw'), marks')
         == GrowFs(LinkFs(fs, Last(book.files[name]), g, garbage), g, raw', marks')
  {
    LinkHeaders(fs, book, name, g, garbage);
  }

  lemma AppendOwners(fs: Fs, book: Book, name: string, g: nat, garbage: seq<nat>, taken: seq<nat>, marks': seq<bool>,
                     spare: set<nat>)
    requires CanLink(fs, book, name, g, garbage) && Takes(fs.marks, marks', taken)
    requires Spare(fs.marks, book.owner, spare) && g !in spare
    ensures Spare(marks', AppendBook(fs, book, name, g, garbage, taken).owner, spare)
  {
    var owner' := AppendBook(fs, book, name, g, garbage, taken).owner;
    assert owner'.Keys == book.owner.Keys + {g} + (set t | t in taken);
    SpareStays(fs.marks, book.owner, spare, marks', owner', g, taken);
  }

  /** Linking an allocated header is linking an empty one and growing it. */
  lemma AppendTaken(fs: Fs, book: Book, name: string, g: nat, garbage: seq<nat>, raw': RawHeader, n: nat,
                    taken: seq<nat>, marks': seq<bool>)
    requires CanLink(fs, book, name, g, garbage)
    requires Grown(EmptyHeader(garbage), raw', n, taken) && Takes(fs.marks, marks', taken)
    ensures
      var h := Last(book.files[name]);
      var fs', book' := Fs(Appended(fs.disk, h, g, raw'), marks'), AppendBook(fs, book, name, g, garbage, taken);
      && FsInv(fs', book') && book'.files == book.files[name := book.files[name] + [g]]
      && Raw(fs'.disk, g) == raw'
      && var bytes := FileBytes(fs', book', name);
         && |bytes| == |FileBytes(fs, book, name)| + n && FileBytes(fs, book, name) <= bytes
         && AllFiles(fs', book') == AllFiles(fs, book)[name := bytes]
  {
    LinkSeen(fs, book, name, g, garbage);
    AppendDisk(fs, book, name, g, garbage, raw', marks');
    var linked, book1 := LinkFs(fs, Last(book.files[name]), g, garbage), LinkBook(book, name, g);
    assert AllFiles(linked, book1)[name] == AllFiles(fs, book)[name];
    GrowTaken(linked, book1, name, raw', n, taken, marks');
  }

  /** Sectors marked used that belong to nobody yet. */
  ghost predicate Spare(marks: seq<bool>, owner: map<nat, Owner>, spare: set<nat>) {
    && |marks| == NUM_SECTORS
    && forall s :: s in spare ==> s < NUM_SECTORS && marks[s] && s !in owner
  }

  lemma SpareStays(marks: seq<bool>, owner: map<nat, Owner>, spare: set<nat>, marks': seq<bool>, owner': map<nat,
                   Owner>,
                   g: nat, taken: seq<nat>)
    requires Spare(marks, owner, spare) && Takes(marks, marks', taken) && g !in spare
    requires owner'.Keys == owner.Keys + {g} + (set t | t in taken)
    ensures Spare(marks', owner', spare)
  {
  }

  lemma HeaderFacts(fs: Fs, book: Book, name: string, k: nat)
    requires FsInv(fs, book) && name in book.files && k < |book.files[name]| && book.files[name][k] < NUM_SECTORS
    ensures
      var raw := Raw(fs.disk, book.files[name][k]);
      && HeaderOk(raw) && Encodable(raw) && DistinctData(raw)
      && (if k + 1 < |book.files[name]| then raw.numBytes == CAPACITY && raw.next == book.files[name][k + 1] > 0
          else raw.next == 0)
  {
    OwnersOf(fs, book, name, k);
    var raw := Raw(fs.disk, book.files[name][k]);
    DecodedIsEncodable(fs.disk[book.files[name][k]]);
    forall i, j | 0 <= i < j < raw.numSectors
      ensures raw.dataSectors[i] != raw.dataSectors[j]
    {
      assert book.owner[raw.dataSectors[i]] == DataOf(name, k, i);
      assert book.owner[raw.dataSectors[j]] == DataOf(name, k, j);
    }
    if k + 1 < |book.files[name]| {
      OwnersOf(fs, book, name, k + 1);
    }
  }

  lemma PartLength(fs: Fs, book: Book, name: string, k: nat)
    requires FsInv(fs, book) && name in book.files && k < |book.files[name]| && book.files[name][k] < NUM_SECTORS
    ensures
      var end := k * CAPACITY + Raw(fs.disk, book.files[name][k]).numBytes;
      && end <= |FileBytes(fs, book, name)|
      && (k + 1 == |book.files[name]| ==> end == |FileBytes(fs, book, name)|)
  {
    OwnersOf(fs, book, name, k);
    OwnersOf(fs, book, name, |book.files[name]| - 1);
  }

  /**
   Sectors have only been marked for file `name`, which keeps those it had, and for the `spare`
   ones; and what the file has got was clear before, but for the `claimed` ones.
   */
  ghost predicate MapGrows(marks: seq<bool>, book: Book, marks': seq<bool>, book': Book, name: string,
                           spare: set<nat>, claimed: set<nat>) {
    && |marks| == |marks'| && SectorsOf(book, name) <= SectorsOf(book', name)
    && (forall s :: 0 <= s < |marks| && marks[s] ==> marks'[s])
    && (forall s :: 0 <= s < |marks| && marks'[s] ==> marks[s] || s in SectorsOf(book', name) || s in spare)
    && (forall s :: s in SectorsOf(book', name) && s !in SectorsOf(book, name) ==>
          s < |marks| && (!marks[s] || s in claimed))
  }

  lemma MapStays(marks: seq<bool>, book: Book, name: string)
    ensures MapGrows(marks, book, marks, book, name, {}, {})
  {
  }

  lemma MapGrowsOn(m0: seq<bool>, b0: Book, m1: seq<bool>, b1: Book, m2: seq<bool>, b2: Book, name: string,
                   spare: set<nat>, more: set<nat>, claimed: set<nat>)
    requires MapGrows(m0, b0, m1, b1, name, spare, {}) && MapGrows(m1, b1, m2, b2, name, {}, claimed)
    requires forall s :: s in spare ==> s in more || s in SectorsOf(b2, name)
    requires forall s :: s in claimed ==> s < |m0| && !m0[s]
    ensures MapGrows(m0, b0, m2, b2, name, more, {})
  {
    hide SectorsOf;
  }

  /** The sectors taken for the last header become the file's. */
  lemma GrownMap(fs: Fs, book: Book, name: string, taken: seq<nat>, marks': seq<bool>)
    requires FsInv(fs, book) && name in book.files && book.files[name] != [] && Last(book.files[name]) < NUM_SECTORS
    requires Takes(fs.marks, marks', taken)
    ensures MapGrows(fs.marks, book, marks', GrowBook(fs, book, name, taken), name, {}, {})
  {
    TakenIsAvailable(fs, book, marks', taken);
    var book' := GrowBook(fs, book, name, taken);
    forall s | s in taken
      ensures s in SectorsOf(book', name)
    {
      assert s in book'.owner;
    }
  }

  lemma AppendedMap(fs: Fs, book: Book, name: string, g: nat, garbage: seq<nat>, taken: seq<nat>, marks': seq<bool>)
    requires CanLink(fs, book, name, g, garbage) && Takes(fs.marks, marks', taken)
    ensures
      var book' := AppendBook(fs, book, name, g, garbage, taken);
      MapGrows(fs.marks, book, marks', book', name, {}, {g}) && g in SectorsOf(book', name)
  {
    LinkHeaders(fs, book, name, g, garbage);
    LinkKeepsInvariant(fs, book, name, g, garbage);
    var linked, book1 := LinkFs(fs, Last(book.files[name]), g, garbage), LinkBook(book, name, g);
    GrownMap(linked, book1, name, taken, marks');
    assert g in SectorsOf(book1, name);
  }

  /** The directory names every file by its first header. */
  ghost predicate Listed(directory: map<string, nat>, files: map<string, seq<nat>>) {
    && directory.Keys == files.Keys
    && forall name :: name in directory ==> files[name] != [] && directory[name] == files[name][0]
  }

  lemma ListedStays(directory: map<string, nat>, files: map<string, seq<nat>>, name: string, g: nat)
    requires Listed(directory, files) && name in files
    ensures Listed(directory, files[name := files[name] + [g]])
  {
  }

  class FileSystem {
    var disk: Disk
    var freeMapFile: seq<bool>
    var directory: map<string, nat>
    ghost var book: Book

    ghost function State(): Fs
      reads this
    {
      Fs(disk, freeMapFile)
    }

    ghost predicate Valid()
      reads this
    {
      FsInv(State(), book) && Listed(directory, book.files)
    }

    /** Every file and its bytes. */
    ghost function Files(): map<string, seq<byte>>
      requires Valid()
      reads this
    {
      AllFiles(State(), book)
    }

    ghost function Chain(name: string): seq<nat>
      requires name in book.files
      reads this
    {
      book.files[name]
    }

    /** `raw` is header `part` of `name` as it is on disk. */
    ghost predicate IsPart(name: string, part: nat, raw: RawHeader)
      reads this
    {
      && Valid() && name in book.files && part < |Chain(name)| && Chain(name)[part] < NUM_SECTORS
      && raw == Raw(disk, Chain(name)[part])
    }

    /** The files are `files`, and `raw` is header `part`, in sector `sector`, of `name`. */
    ghost predicate At(files: map<string, seq<byte>>, name: string, part: nat, sector: nat, raw: RawHeader)
      reads this
    {
      IsPart(name, part, raw) && sector == Chain(name)[part] && Files() == files && name in files
    }

    lemma PartFacts(files: map<string, seq<byte>>, name: string, part: nat, sector: nat, raw: RawHeader)
      requires At(files, name, part, sector, raw)
      ensures HeaderOk(raw) && Encodable(raw) && DistinctData(raw)
      ensures part + 1 < |Chain(name)| ==> raw.numBytes == CAPACITY && raw.next == Chain(name)[part + 1] > 0
      ensures part + 1 == |Chain(name)| ==> raw.next == 0 && |files[name]| == part * CAPACITY + raw.numBytes
      ensures part * CAPACITY + raw.numBytes <= |files[name]|
    {
      HeaderFacts(State(), book, name, part);
      PartLength(State(), book, name, part);
    }

    /** All headers but the last one are full. */
    lemma LastPart(files: map<string, seq<byte>>, name: string)
      requires Valid() && Files() == files && name in files
      ensures name in book.files && 0 < |Chain(name)|
      ensures (|Chain(name)| - 1) * CAPACITY <= |files[name]| <= |Chain(name)| * CAPACITY
    {
      hide Backed, Decode, DistinctData, Encodable;
      assert FileOk(disk, book, name);
      var part := |Chain(name)| - 1;
      OwnersOf(State(), book, name, part);
      PartFacts(files, name, part, Chain(name)[part], Raw(disk, Chain(name)[part]));
    }

    /** Overwrites bytes inside part `part`. */
    method Overwrite(ghost files: map<string, seq<byte>>, ghost name: string, ghost part: nat, ghost sector: nat,
                     raw: RawHeader, from: seq<byte>, position: nat)
      requires At(files, name, part, sector, raw) && from != [] && position + |from| <= raw.numBytes
      modifies this`disk
      ensures part * CAPACITY + position + |from| <= |files[name]|
      ensures At(files[name := Splice(files[name], part * CAPACITY + position, from)], name, part, sector, raw)
    {
      PartFacts(files, name, part, sector, raw);
      var disk', written := WriteAt(disk, raw, from, position);
      assert from[..written] == from;
      WriteSeen(State(), book, disk', name, part, position, from);
      disk := disk';
    }

    /** Writes a grown last header and the map back to disk; `bytes` is the file with its new tail. */
    method WriteBackGrowth(ghost files: map<string, seq<byte>>, ghost name: string, ghost part: nat, sector: nat,
                           ghost raw: RawHeader, raw': RawHeader, freeMap: seq<bool>, ghost n: nat,
                             ghost taken: seq<nat>)
      returns (ghost bytes: seq<byte>)
      requires At(files, name, part, sector, raw) && part + 1 == |Chain(name)|
      requires Grown(raw, raw', n, taken) && Takes(freeMapFile, freeMap, taken)
      modifies this`disk, this`freeMapFile, this`book
      ensures freeMapFile == freeMap && book.files == old(book.files)
      ensures MapGrows(old(freeMapFile), old(book), freeMapFile, book, name, {}, {})
      ensures |bytes| == |files[name]| + n && files[name] <= bytes
      ensures At(files[name := bytes], name, part, sector, raw')
    {
      hide FileOk, Backed, ClearCount, Decode, Pack, DivRoundUp;
      ghost var before, was := State(), book;
      GrowTaken(before, was, name, raw', n, taken, freeMap);
      GrownMap(before, was, name, taken, freeMap);
      freeMapFile := freeMap;
      disk := disk[sector := Encode(raw')];
      book := GrowBook(before, was, name, taken);
      bytes := FileBytes(State(), book, name);
    }

    /** Makes the last part `n` bytes longer; fails without effect if sectors are short. */
    method Grow(ghost files: map<string, seq<byte>>, ghost name: string, ghost part: nat, sector: nat, raw: RawHeader,
                n: nat)
      returns (success: bool, raw': RawHeader, ghost bytes: seq<byte>)
      requires At(files, name, part, sector, raw) && part + 1 == |Chain(name)| && raw.numBytes + n <= CAPACITY
      modifies this`disk, this`freeMapFile, this`book
      ensures success <==> old(ClearCount(freeMapFile)) >= SectorsFor(raw.numBytes + n) - raw.numSectors
      ensures book.files == old(book.files)
      ensures !success ==> unchanged(this)
      ensures MapGrows(old(freeMapFile), old(book), freeMapFile, book, name, {}, {})
      ensures success ==>
        && ClearCount(freeMapFile) == old(ClearCount(freeMapFile)) - (SectorsFor(raw.numBytes + n) - raw.numSectors)
        && raw'.numBytes == raw.numBytes + n
        && |bytes| == |files[name]| + n && files[name] <= bytes
        && At(files[name := bytes], name, part, sector, raw')
    {
      PartFacts(files, name, part, sector, raw);
      var freeMap;
      ghost var taken;
      bytes := files[name];
      success, raw', freeMap, taken := Allocate(raw, freeMapFile, n);
      if success {
        bytes := WriteBackGrowth(files, name, part, sector, raw, raw', freeMap, n, taken);
      }
    }

    /** Sectors the last part lacks for `end` bytes in it. */
    static function Lacking(raw: RawHeader, end: nat): int {
      if end > raw.numBytes then SectorsFor(end) - raw.numSectors else 0
    }

    /**
     The block that `Write` runs on each existing header: extend it if the chunk
     does not fit, write header and map back, then write the chunk.
     */
    method PutInHeader(ghost files: map<string, seq<byte>>, ghost name: string, ghost part: nat, sector: nat,
                       raw: RawHeader, chunk: seq<byte>, position: nat)
      returns (success: bool, raw': RawHeader)
      requires At(files, name, part, sector, raw) && chunk != []
      requires position <= raw.numBytes && position + |chunk| <= CAPACITY
      modifies this`disk, this`freeMapFile, this`book
      ensures book.files == old(book.files)
      ensures success <==> old(ClearCount(freeMapFile)) >= Lacking(raw, position + |chunk|)
      ensures !success ==> unchanged(this)
      ensures MapGrows(old(freeMapFile), old(book), freeMapFile, book, name, {}, {})
      ensures success ==>
        && ClearCount(freeMapFile) == old(ClearCount(freeMapFile)) - Lacking(raw, position + |chunk|)
        && raw'.numBytes == MaxOf(raw.numBytes, position + |chunk|)
        && part * CAPACITY + position <= |files[name]|
        && At(files[name := Lay(files[name], part * CAPACITY + position, chunk)], name, part, sector, raw')
    {
      PartFacts(files, name, part, sector, raw);
      raw', success := raw, true;
      if position + |chunk| > raw.numBytes {
        success, raw' := GrowAndFill(files, name, part, sector, raw, chunk, position);
      } else {
        assert files[name := files[name]] == files;
        FillIn(files, files[name], name, part, sector, raw, chunk, position);
      }
    }

    /** The case where the part, necessarily the last one, has to be extended. */
    method GrowAndFill(ghost files: map<string, seq<byte>>, ghost name: string, ghost part: nat, sector: nat,
                       raw: RawHeader, chunk: seq<byte>, position: nat)
      returns (success: bool, raw': RawHeader)
      requires At(files, name, part, sector, raw) && part + 1 == |Chain(name)| && chunk != []
      requires |files[name]| == part * CAPACITY + raw.numBytes
      requires position <= raw.numBytes < position + |chunk| <= CAPACITY
      modifies this`disk, this`freeMapFile, this`book
      ensures book.files == old(book.files)
      ensures success <==> old(ClearCount(freeMapFile)) >= Lacking(raw, position + |chunk|)
      ensures !success ==> unchanged(this)
      ensures MapGrows(old(freeMapFile), old(book), freeMapFile, book, name, {}, {})
      ensures success ==>
        && ClearCount(freeMapFile) == old(ClearCount(freeMapFile)) - Lacking(raw, position + |chunk|)
        && raw'.numBytes == position + |chunk|
        && At(files[name := Lay(files[name], part * CAPACITY + position, chunk)], name, part, sector, raw')
    {
      hide FileOk, Backed, ClearCount, Decode, DivRoundUp, Lay, Listed, MapGrows, DistinctData, Encodable;
      ghost var bytes;
      success, raw', bytes := Grow(files, name, part, sector, raw, position + |chunk| - raw.numBytes);
      if success {
        FillIn(files, bytes, name, part, sector, raw', chunk, position);
      }
    }

    /** Writes the chunk into a part that has room for it; `bytes` is the file as extended for it. */
    method FillIn(ghost files: map<string, seq<byte>>, ghost bytes: seq<byte>, ghost name: string, ghost part: nat,
                  ghost sector: nat, raw: RawHeader, chunk: seq<byte>, position: nat)
      requires name in files && At(files[name := bytes], name, part, sector, raw) && chunk != []
      requires position + |chunk| <= raw.numBytes && part * CAPACITY + position <= |files[name]| && files[name] <= bytes
      requires |bytes| == MaxOf(|files[name]|, part * CAPACITY + position + |chunk|)
      modifies this`disk
      ensures At(files[name := Lay(files[name], part * CAPACITY + position, chunk)], name, part, sector, raw)
    {
      hide FileOk, Backed, Decode, HeaderOk, Encodable, DistinctData;
      LayIsSplice(files[name], bytes, part * CAPACITY + position, chunk);
      ghost var laid := Lay(files[name], part * CAPACITY + position, chunk);
      Overwrite(files[name := bytes], name, part, sector, raw, chunk, position);
      assert files[name := bytes][name := laid] == files[name := laid];
    }

    /** The sectors `spare` are marked used on disk and belong to nobody yet. */
    ghost predicate Claimed(spare: set<nat>)
      reads this
    {
      Spare(freeMapFile, book.owner, spare)
    }

    /** A claimed sector can be linked as a header behind the full last one. */
    lemma ClaimedLinks(files: map<string, seq<byte>>, name: string, part: nat, sector: nat, raw: RawHeader, g: nat,
                       spare: set<nat>, garbage: seq<nat>)
      requires At(files, name, part, sector, raw) && part + 1 == |Chain(name)| && raw.numBytes == CAPACITY
      requires Claimed({g} + spare) && g !in spare && Encodable(EmptyHeader(garbage))
      ensures CanLink(State(), book, name, g, garbage) && Spare(freeMapFile, book.owner, spare)
      ensures Last(book.files[name]) == sector && name in book.files
    {
      hide FileOk, Backed, ClearCount, Decode, Pack, DivRoundUp, DistinctData;
      assert g in {g} + spare;
    }

    /** Writes a new header to sector `g` and links it behind the full last header. */
    method LinkHeader(ghost files: map<string, seq<byte>>, ghost name: string, ghost part: nat, sector: nat,
                      raw: RawHeader,
                      g: nat, ghost spare: set<nat>, ghost garbage: seq<nat>, raw': RawHeader, freeMap: seq<bool>,
                      ghost n: nat, ghost taken: seq<nat>)
      returns (ghost bytes: seq<byte>)
      requires At(files, name, part, sector, raw) && part + 1 == |Chain(name)| && raw.numBytes == CAPACITY
      requires Claimed({g} + spare) && g !in spare && Encodable(EmptyHeader(garbage))
      requires Grown(EmptyHeader(garbage), raw', n, taken) && Takes(freeMapFile, freeMap, taken)
      modifies this`disk, this`freeMapFile, this`book
      ensures freeMapFile == freeMap && book.files == old(book.files)[name := old(book.files)[name] + [g]]
      ensures MapGrows(old(freeMapFile), old(book), freeMapFile, book, name, {}, {g}) && g in SectorsOf(book, name)
      ensures Claimed(spare)
      ensures |bytes| == |files[name]| + n && files[name] <= bytes
      ensures At(files[name := bytes], name, part + 1, g, raw')
    {
      hide FileOk, Backed, ClearCount, Decode, Pack, DivRoundUp, DistinctData, MapGrows, Spare, CanLink, Grown, Takes;
      ghost var before, was := State(), book;
      ClaimedLinks(files, name, part, sector, raw, g, spare, garbage);
      AppendTaken(before, was, name, g, garbage, raw', n, taken, freeMap);
      AppendOwners(before, was, name, g, garbage, taken, freeMap, spare);
      AppendedMap(before, was, name, g, garbage, taken, freeMap);
      ListedStays(directory, was.files, name, g);
      freeMapFile := freeMap;
      disk := disk[g := Encode(raw')];
      disk := disk[sector := Encode(raw.(next := g))];
      assert disk == Appended(before.disk, sector, g, raw');
      book := AppendBook(before, was, name, g, garbage, taken);
      bytes := FileBytes(State(), book, name);
    }

    /** A new header with as much data as `chunk`, linked and filled; fails without effect if sectors are short. */
    method AppendHeader(ghost files: map<string, seq<byte>>, ghost name: string, ghost part: nat, sector: nat,
                        raw: RawHeader,
                        g: nat, ghost spare: set<nat>, chunk: seq<byte>)
      returns (success: bool, raw': RawHeader)
      requires At(files, name, part, sector, raw) && part + 1 == |Chain(name)| && raw.numBytes == CAPACITY
      requires Claimed({g} + spare) && g !in spare && 0 < |chunk| <= CAPACITY
      modifies this`disk, this`freeMapFile, this`book
      ensures success <==> old(ClearCount(freeMapFile)) >= SectorsFor(|chunk|)
      ensures !success ==> unchanged(this)
      ensures success ==>
        && ClearCount(freeMapFile) == old(ClearCount(freeMapFile)) - SectorsFor(|chunk|)
        && book.files == old(book.files)[name := old(book.files)[name] + [g]]
        && raw'.numBytes == |chunk|
        && At(files[name := files[name] + chunk], name, part + 1, g, raw')
      ensures success ==> Claimed(spare)
      ensures success ==>
        MapGrows(old(freeMapFile), old(book), freeMapFile, book, name, {}, {g}) && g in SectorsOf(book, name)
    {
      PartFacts(files, name, part, sector, raw);
      hide FileOk, Backed, ClearCount, Decode, DivRoundUp, Listed, Spare, DistinctData;
      var fresh' := FreshHeader();
      var freeMap;
      ghost var taken;
      success, raw', freeMap, taken := Allocate(fresh', freeMapFile, |chunk|);
      if success {
        LinkAndFill(files, name, part, sector, raw, g, spare, fresh'.dataSectors, raw', freeMap, chunk, taken);
      }
    }

    /** The rest of `AppendHeader`, once the sectors are there. */
    method LinkAndFill(ghost files: map<string, seq<byte>>, ghost name: string, ghost part: nat, sector: nat,
                       raw: RawHeader,
                       g: nat, ghost spare: set<nat>, ghost garbage: seq<nat>, raw': RawHeader, freeMap: seq<bool>,
                       chunk: seq<byte>, ghost taken: seq<nat>)
      requires At(files, name, part, sector, raw) && part + 1 == |Chain(name)| && raw.numBytes == CAPACITY
      requires |files[name]| == (part + 1) * CAPACITY && chunk != []
      requires Claimed({g} + spare) && g !in spare && Encodable(EmptyHeader(garbage))
      requires Grown(EmptyHeader(garbage), raw', |chunk|, taken) && Takes(freeMapFile, freeMap, taken)
      modifies this`disk, this`freeMapFile, this`book
      ensures freeMapFile == freeMap && book.files == old(book.files)[name := old(book.files)[name] + [g]]
      ensures MapGrows(old(freeMapFile), old(book), freeMapFile, book, name, {}, {g}) && g in SectorsOf(book, name)
      ensures Claimed(spare)
      ensures At(files[name := files[name] + chunk], name, part + 1, g, raw')
    {
      hide FileOk, Backed, ClearCount, Decode, DivRoundUp, Listed, Spare, DistinctData, HeaderOk, Encodable;
      ghost var bytes;
      bytes := LinkHeader(files, name, part, sector, raw, g, spare, garbage, raw', freeMap, |chunk|, taken);
      assert raw'.numBytes == |chunk|;
      FillNew(files, bytes, name, part + 1, g, raw', chunk);
    }

    /** A header with nothing in it; the table of sectors is whatever memory held. */
    static method FreshHeader() returns (raw: RawHeader)
      ensures raw == EmptyHeader(raw.dataSectors) && Encodable(raw) && HeaderOk(raw)
    {
      assert Encodable(EmptyHeader(seq(NUM_DIRECT, _ => 0)));
      raw :| raw == EmptyHeader(raw.dataSectors) && Encodable(raw);
    }

    /** Writes the chunk that a new header was made for. */
    method FillNew(ghost files: map<string, seq<byte>>, ghost bytes: seq<byte>, ghost name: string, ghost part: nat,
                   ghost sector: nat, raw: RawHeader, chunk: seq<byte>)
      requires name in files && At(files[name := bytes], name, part, sector, raw) && chunk != []
      requires |chunk| == raw.numBytes && part * CAPACITY == |files[name]| && files[name] <= bytes
      requires |bytes| == |files[name]| + |chunk|
      modifies this`disk
      ensures At(files[name := files[name] + chunk], name, part, sector, raw)
    {
      assert Lay(files[name], part * CAPACITY, chunk) == files[name] + chunk;
      FillIn(files, bytes, name, part, sector, raw, chunk, 0);
    }

    /** Takes `n` free sectors for headers, writing the map back after each. */
    method ClaimSectors(ghost files: map<string, seq<byte>>, ghost name: string, ghost part: nat, ghost sector: nat,
                        ghost raw: RawHeader, n: nat)
      returns (sectors: seq<nat>)
      requires At(files, name, part, sector, raw) && n <= ClearCount(freeMapFile)
      modifies this`freeMapFile
      ensures At(files, name, part, sector, raw)
      ensures |sectors| == n && ClearCount(freeMapFile) == old(ClearCount(freeMapFile)) - n
      ensures forall i, j :: 0 <= i < j < n ==> sectors[i] != sectors[j]
      ensures Claimed(set s | s in sectors)
      ensures Takes(old(freeMapFile), freeMapFile, sectors) && Lowest(old(freeMapFile), sectors)
    {
      hide Lowest, Decode, FileOk, Backed, ClearCount, HeaderOk, ByteIn;
      LowestOfNone(freeMapFile);
      sectors := [];
      ghost var marks := freeMapFile;
      TakesNone(marks);
      while |sectors| < n
        invariant |sectors| <= n && At(files, name, part, sector, raw)
        invariant Takes(marks, freeMapFile, sectors) && Lowest(marks, sectors)
      {
        FullMeansNoneClear(freeMapFile);
        var g := FirstClear(freeMapFile, 0);
        LowestOneMore(marks, freeMapFile, sectors);
        TakesOne(marks, freeMapFile, sectors, g);
        MoreMarks(State(), book, freeMapFile[g := true]);
        freeMapFile := freeMapFile[g := true];
        sectors := sectors + [g];
      }
      TakenIsAvailable(Fs(disk, marks), book, freeMapFile, sectors) by {
        assert FsInv(old(State()), old(book));
      }
    }

    /** A formatted disk: no files, and some sectors, 0 among them, kept by the system. */
    constructor (disk: Disk, freeMap: seq<bool>)
      requires DiskShape(disk) && |freeMap| == NUM_SECTORS && freeMap[0]
      ensures Valid() && Files() == map[] && freeMapFile == freeMap
    {
      this.disk, freeMapFile, directory := disk, freeMap, map[];
      book := Book(map[], map s | 0 <= s < NUM_SECTORS && freeMap[s] :: System);
    }

    /** `FileSystem::Create`; `room` says whether the directory takes another entry. */
    method Create(name: string, room: bool) returns (success: bool)
      requires Valid()
      modifies this
      ensures success <==> name !in old(directory) && old(ClearCount(freeMapFile)) > 0 && room
      ensures Valid()
      ensures if success then Files() == old(Files())[name := []] else unchanged(this)
      ensures success ==>
        exists g :: 0 <= g < NUM_SECTORS && !old(freeMapFile)[g] && freeMapFile == old(freeMapFile)[g := true]
    {
      hide FileOk, Backed, Decode, ClearCount;
      if name in directory {
        return false;
      }
      FullMeansNoneClear(freeMapFile);
      var g := FirstClear(freeMapFile, 0);
      if g == NUM_SECTORS || !room {
        return false;
      }
      var raw := FreshHeader();
      CreateSeen(State(), book, name, g, raw.dataSectors);
      disk := disk[g := Encode(raw)];
      freeMapFile := freeMapFile[g := true];
      directory := directory[name := g];
      book := CreateBook(book, name, g);
      success := true;
    }

    /** `FileSystem::Remove`: every header of the chain in turn, its data sectors and then itself. */
    method Remove(name: string) returns (success: bool)
      requires Valid()
      modifies this
      ensures success <==> name in old(directory)
      ensures Valid()
      ensures if success then Files() == old(Files()) - {name} else unchanged(this)
      ensures success ==>
        && disk == old(disk) && directory == old(directory) - {name} && book == RemoveBook(old(book), name)
        && |old(freeMapFile)| == |freeMapFile| == NUM_SECTORS
        && forall s :: 0 <= s < NUM_SECTORS ==>
             freeMapFile[s] == (old(freeMapFile)[s] && s !in SectorsOf(old(book), name))
    {
      hide FileOk, Backed, Decode, ClearCount;
      if name !in directory {
        return false;
      }
      var freeMap := FreeChain(name, directory[name]);
      RemoveSeen(State(), book, name, freeMap);
      directory := directory - {name};
      freeMapFile := freeMap;
      book := RemoveBook(book, name);
      success := true;
    }

    /** The walk of `Remove` along the chain. */
    method FreeChain(ghost name: string, sector: nat) returns (freeMap: seq<bool>)
      requires Valid() && name in directory && sector == directory[name]
      ensures |freeMapFile| == |freeMap| == NUM_SECTORS
      ensures forall s :: 0 <= s < NUM_SECTORS ==>
                freeMap[s] == (freeMapFile[s] && s !in SectorsOf(book, name))
    {
      hide FileOk, Backed, Decode, ClearCount;
      ghost var k := 0;
      freeMap := freeMapFile;
      FreedNone(State(), book, name);
      OwnersOf(State(), book, name, 0);
      var next := sector;
      while next != 0
        invariant k <= |Chain(name)| && Freed(State(), book, name, k, freeMap)
        invariant next == if k < |Chain(name)| then Chain(name)[k] else 0
        invariant k < |Chain(name)| ==> 0 < Chain(name)[k] < NUM_SECTORS
        decreases |Chain(name)| - k
      {
        var raw := Raw(disk, next);
        HeaderFacts(State(), book, name, k);
        StillMarked(State(), book, name, k, freeMap);
        var freeMap1 := Deallocate(raw, freeMap);
        FreedOneMore(State(), book, name, k, freeMap, freeMap1);
        freeMap := freeMap1[next := false];
        if k + 1 < |Chain(name)| {
          OwnersOf(State(), book, name, k + 1);
        }
        next := raw.next;
        k := k + 1;
      }
      FreedAll(State(), book, name, freeMap);
    }
  }

  // ---------- freeing a chain ----------

  /** Sector `s` belongs to one of the first `k` headers of `name`. */
  ghost predicate OwnedBelow(book: Book, s: nat, name: string, k: nat) {
    s in book.owner && !book.owner[s].System? && book.owner[s].name == name && book.owner[s].k < k
  }

  /** `marks` is the map of `fs` without the sectors of the first `k` headers of `name`. */
  ghost predicate Freed(fs: Fs, book: Book, name: string, k: nat, marks: seq<bool>) {
    && |fs.marks| == |marks| == NUM_SECTORS
    && forall s :: 0 <= s < NUM_SECTORS ==> marks[s] == (fs.marks[s] && !OwnedBelow(book, s, name, k))
  }

  lemma FreedNone(fs: Fs, book: Book, name: string)
    requires |fs.marks| == NUM_SECTORS
    ensures Freed(fs, book, name, 0, fs.marks)
  {
  }

  /** What header `k` owns is what it lists. */
  lemma OwnedByPart(fs: Fs, book: Book, name: string, k: nat, s: nat)
    requires FsInv(fs, book) && name in book.files && k < |book.files[name]| && book.files[name][k] < NUM_SECTORS
    requires HeaderOk(Raw(fs.disk, book.files[name][k]))
    ensures OwnedBelow(book, s, name, k + 1) && !OwnedBelow(book, s, name, k)
       <==> s == book.files[name][k] || s in Listing(Raw(fs.disk, book.files[name][k]))
  {
    OwnersOf(fs, book, name, k);
    if s in book.owner {
      assert Backed(fs.disk, book, s);
    }
  }

  /** The data sectors of a header. */
  function Listing(raw: RawHeader): seq<nat>
    requires HeaderOk(raw)
  {
    raw.dataSectors[..raw.numSectors]
  }

  /** The sectors of the next header have not been freed yet. */
  lemma StillMarked(fs: Fs, book: Book, name: string, k: nat, marks: seq<bool>)
    requires FsInv(fs, book) && name in book.files && k < |book.files[name]| && book.files[name][k] < NUM_SECTORS
    requires Freed(fs, book, name, k, marks) && HeaderOk(Raw(fs.disk, book.files[name][k]))
    ensures forall j :: 0 <= j < |Listing(Raw(fs.disk, book.files[name][k]))| ==>
      marks[Listing(Raw(fs.disk, book.files[name][k]))[j]]
  {
    OwnersOf(fs, book, name, k);
    var data := Listing(Raw(fs.disk, book.files[name][k]));
    forall j | 0 <= j < |data|
      ensures marks[data[j]]
    {
      assert book.owner[data[j]] == DataOf(name, k, j);
    }
  }

  lemma FreedOneMore(fs: Fs, book: Book, name: string, k: nat, marks: seq<bool>, marks1: seq<bool>)
    requires FsInv(fs, book) && name in book.files && k < |book.files[name]| && book.files[name][k] < NUM_SECTORS
    requires Freed(fs, book, name, k, marks) && HeaderOk(Raw(fs.disk, book.files[name][k])) && |marks1| == NUM_SECTORS
    requires forall s :: 0 <= s < NUM_SECTORS ==>
               marks1[s] == (marks[s] && s !in Listing(Raw(fs.disk, book.files[name][k])))
    ensures Freed(fs, book, name, k + 1, marks1[book.files[name][k] := false])
  {
    hide FsInv;
    var marks2 := marks1[book.files[name][k] := false];
    forall s | 0 <= s < NUM_SECTORS
      ensures marks2[s] == (fs.marks[s] && !OwnedBelow(book, s, name, k + 1))
    {
      OwnedByPart(fs, book, name, k, s);
    }
  }

  lemma FreedAll(fs: Fs, book: Book, name: string, marks: seq<bool>)
    requires FsInv(fs, book) && name in book.files && Freed(fs, book, name, |book.files[name]|, marks)
    ensures forall s :: 0 <= s < NUM_SECTORS ==> marks[s] == (fs.marks[s] && s !in SectorsOf(book, name))
  {
    forall s | s in SectorsOf(book, name)
      ensures OwnedBelow(book, s, name, |book.files[name]|)
    {
      assert Backed(fs.disk, book, s);
    }
  }

  /** `FileHeader::Deallocate`: the assertion that a sector is marked before it is cleared holds each time. */
  method Deallocate(raw: RawHeader, freeMap: seq<bool>) returns (freeMap': seq<bool>)
    requires HeaderOk(raw) && DistinctData(raw) && |freeMap| == NUM_SECTORS
    requires forall j :: 0 <= j < |Listing(raw)| ==> freeMap[Listing(raw)[j]]
    ensures |freeMap'| == NUM_SECTORS
    ensures forall s :: 0 <= s < NUM_SECTORS ==> freeMap'[s] == (freeMap[s] && s !in Listing(raw))
  {
    freeMap' := freeMap;
    var i := 0;
    while i < raw.numSectors
      invariant i <= raw.numSectors && |freeMap'| == NUM_SECTORS
      invariant forall s :: 0 <= s < NUM_SECTORS ==> freeMap'[s] == (freeMap[s] && s !in raw.dataSectors[..i])
    {
      var sector := raw.dataSectors[i];
      assert freeMap'[sector] by {
        assert Listing(raw)[i] == sector;
      }
      assert raw.dataSectors[..i + 1] == raw.dataSectors[..i] + [sector];
      freeMap' := freeMap'[sector := false];
      i := i + 1;
    }
  }
}
