/** Open files: `Write` walks and grows the chain of headers, `Read` walks it. */
module OpenFiles {
  import opened Numbers
  import opened FlatMemory
  import opened Bitmaps
  import opened FileLayout
  import opened FileOwnership
  import opened FreeMaps
  import opened FileHeaders
  import opened ByteFiles
  import opened FileSystems

  type Files = map<string, seq<byte>>

  /** `files` with `data` laid over file `name` from `p` on. */
  function Laid(files: Files, name: string, p: nat, data: seq<byte>): Files
    requires name in files && p <= |files[name]|
  {
    files[name := Lay(files[name], p, data)]
  }

  lemma LaidNothing(files: Files, name: string, p: nat)
    requires name in files && p <= |files[name]|
    ensures Laid(files, name, p, []) == files
  {
    LayNothing(files[name], p);
  }

  lemma LaidTwice(files: Files, name: string, p: nat, a: seq<byte>, b: seq<byte>)
    requires name in files && p <= |files[name]|
    ensures p + |a| <= |Laid(files, name, p, a)[name]|
    ensures Laid(Laid(files, name, p, a), name, p + |a|, b) == Laid(files, name, p, a + b)
  {
    LayTwice(files[name], p, a, b);
  }

  /** The next chunk of a write continues where the last one stopped. */
  lemma LaidNext(files: Files, name: string, p: nat, from: seq<byte>, r: nat, n: nat)
    requires name in files && p <= |files[name]| && r + n <= |from|
    ensures p + r <= |Laid(files, name, p, from[..r])[name]|
    ensures Laid(Laid(files, name, p, from[..r]), name, p + r, from[r..r + n]) == Laid(files, name, p, from[..r + n])
  {
    assert from[..r] + from[r..r + n] == from[..r + n];
    LaidTwice(files, name, p, from[..r], from[r..r + n]);
  }

  /** At the end of the file, the next chunk is appended. */
  lemma LaidAtEnd(files: Files, name: string, p: nat, from: seq<byte>, r: nat, n: nat)
    requires name in files && p <= |files[name]| && r + n <= |from|
    requires |Laid(files, name, p, from[..r])[name]| == p + r
    ensures
      var now := Laid(files, name, p, from[..r]);
      now[name := now[name] + from[r..r + n]] == Laid(files, name, p, from[..r + n])
  {
    LaidNext(files, name, p, from, r, n);
    var now, chunk := Laid(files, name, p, from[..r]), from[r..r + n];
    assert Lay(now[name], p + r, chunk) == now[name] + chunk;
  }

  // ---------- how much a write can take ----------

  function HeadersFor(n: nat): nat {
    DivRoundUp(n, CAPACITY)
  }

  /** Free sectors needed to make a file of `length` bytes in `parts` headers hold `end` bytes. */
  function Needed(length: nat, parts: nat, end: nat): int {
    if end <= length then 0
    else SectorsFor(end) - SectorsFor(length) + (if HeadersFor(end) > parts then HeadersFor(end) - parts else 0)
  }

  /** Data sectors that a file of `length` bytes lacks for `end` bytes in the headers it has. */
  function Lacks(length: nat, end: nat): (k: nat) {
    MoreHeaders(length, MaxOf(length, end));
    SectorsFor(MaxOf(length, end)) - SectorsFor(length)
  }

  /** How far into the file a write of `n` bytes at `p` gets without new headers. */
  function Within(p: nat, n: nat, parts: nat): nat {
    Min(p + n, parts * CAPACITY)
  }

  /**
   Bytes that go into new headers: none unless the first of them can be filled, then as many as there
   are sectors for.
   */
  function AcceptedNew(rest: nat, clear: nat): nat {
    if rest == 0 || clear < HeadersFor(rest) + SectorsFor(Min(rest, CAPACITY)) then 0
    else Min(rest, (clear - HeadersFor(rest)) * SECTOR_SIZE)
  }

  /** Sectors clear after that; those claimed for headers are gone even if nothing could be written. */
  function ClearAfterNew(rest: nat, clear: nat): int {
    if rest == 0 || clear < HeadersFor(rest) then clear
    else clear - HeadersFor(rest) - SectorsFor(AcceptedNew(rest, clear))
  }

  /**
   The bytes that `Write` accepts of `n` at offset `p` of a file of `length` bytes in `parts`
   headers, with `clear` sectors free: the part that goes into the last header is taken
   whole or not at all, and without it nothing behind it.
   */
  function AcceptedBytes(p: nat, n: nat, length: nat, parts: nat, clear: nat): nat
    requires p <= length <= parts * CAPACITY && parts > 0
  {
    var e := Within(p, n, parts);
    var lacks := Lacks(length, e);
    if clear < lacks then MaxOf(p, (parts - 1) * CAPACITY) - p
    else e - p + AcceptedNew(p + n - e, clear - lacks)
  }

  function ClearAfter(p: nat, n: nat, length: nat, parts: nat, clear: nat): int {
    var e := Within(p, n, parts);
    var lacks := Lacks(length, e);
    if clear < lacks then clear else ClearAfterNew(p + n - e, clear - lacks)
  }

  /** Headers that the file has afterwards. */
  function PartsAfter(p: nat, n: nat, length: nat, parts: nat, clear: nat): nat {
    var e := Within(p, n, parts);
    var lacks := Lacks(length, e);
    if clear < lacks then parts else parts + HeadersFor(AcceptedNew(p + n - e, clear - lacks))
  }

  lemma GrownHeaders(parts: nat, n: nat)
    ensures HeadersFor(parts * CAPACITY + n) == parts + HeadersFor(n)
  {
  }

  lemma MoreHeaders(a: nat, b: nat)
    requires a <= b
    ensures HeadersFor(a) <= HeadersFor(b) && SectorsFor(a) <= SectorsFor(b)
  {
  }

  /** `n` bytes in full chunks and a last one: the sectors of the first chunk and those of the rest. */
  lemma SectorsSplit(n: nat)
    ensures n >= CAPACITY ==> SectorsFor(n) == NUM_DIRECT + SectorsFor(n - CAPACITY)
    ensures SectorsFor(CAPACITY) == NUM_DIRECT && SectorsFor(0) == 0
    ensures n > 0 ==> SectorsFor(n) > 0
    ensures SectorsFor(n * SECTOR_SIZE) == n
  {
  }

  /** Headers counted by sectors, as `Write` counts them, or by bytes. */
  lemma HeaderCount(n: nat)
    ensures DivRoundUp(SectorsFor(n), NUM_DIRECT) == HeadersFor(n)
  {
  }

  lemma FewerBytes(rest: nat, clear: nat)
    ensures SectorsFor(rest) <= clear <==> rest <= clear * SECTOR_SIZE
  {
  }

  /** Everything is accepted if and only if there are sectors enough; then exactly those are used. */
  lemma AcceptedInFull(p: nat, n: nat, length: nat, parts: nat, clear: nat)
    requires p <= length <= parts * CAPACITY && parts > 0 && (parts - 1) * CAPACITY <= length && n > 0
    ensures AcceptedBytes(p, n, length, parts, clear) <= n
    ensures AcceptedBytes(p, n, length, parts, clear) == n <==> clear >= Needed(length, parts, p + n)
    ensures clear >= Needed(length, parts, p + n) ==>
      && ClearAfter(p, n, length, parts, clear) == clear - Needed(length, parts, p + n)
      && PartsAfter(p, n, length, parts, clear) == MaxOf(parts, HeadersFor(p + n))
  {
    hide DivRoundUp, SectorsFor, HeadersFor, Needed, Lacks;
    var e := Within(p, n, parts);
    var rest := p + n - e;
    NeededSplit(p, n, length, parts);
    if clear >= Lacks(length, e) + HeadersFor(rest) && rest > 0 {
      FewerBytes(rest, clear - Lacks(length, e) - HeadersFor(rest));
    }
  }

  /** What is needed inside the headers there are, and for new ones. */
  lemma NeededSplit(p: nat, n: nat, length: nat, parts: nat)
    requires p <= length <= parts * CAPACITY && parts > 0 && n > 0
    ensures
      var e := Within(p, n, parts);
      var rest := p + n - e;
      && Needed(length, parts, p + n) == Lacks(length, e) + SectorsFor(rest) + HeadersFor(rest)
      && (Lacks(length, e) > 0 ==> e > length)
      && SectorsFor(Min(rest, CAPACITY)) <= SectorsFor(rest) && (rest > 0 ==> SectorsFor(rest) > 0)
      && HeadersFor(0) == SectorsFor(0) == 0 && MaxOf(parts, HeadersFor(p + n)) == parts + HeadersFor(rest)
  {
    hide DivRoundUp, SectorsFor, HeadersFor;
    var e := Within(p, n, parts);
    var rest := p + n - e;
    NoneNew();
    GrownSectors(parts, 0);
    GrownSectors(parts, rest);
    GrownHeaders(parts, rest);
    MoreHeaders(p + n, MaxOf(p + n, parts * CAPACITY));
    MoreHeaders(Min(rest, CAPACITY), rest);
    SectorsSplit(rest);
    SectorsSplit(0);
    GrownHeaders(parts, 0);
  }

  /** Two writes in a row need what one over both needs. */
  lemma NeededAdds(length: nat, parts: nat, a: nat, b: nat)
    requires length <= parts * CAPACITY && a <= b
    ensures Needed(length, parts, b)
      == Needed(length, parts, a) + Needed(MaxOf(length, a), MaxOf(parts, HeadersFor(a)), b)
    ensures Needed(length, parts, a) >= 0 && Needed(MaxOf(length, a), MaxOf(parts, HeadersFor(a)), b) >= 0
    ensures MaxOf(MaxOf(parts, HeadersFor(a)), HeadersFor(b)) == MaxOf(parts, HeadersFor(b))
  {
    hide DivRoundUp, SectorsFor, HeadersFor;
    NoneNew();
    MoreHeaders(a, b);
    MoreHeaders(length, parts * CAPACITY);
    GrownHeaders(parts, 0);
    MoreHeaders(length, MaxOf(length, a));
    MoreHeaders(length, MaxOf(length, b));
    if a <= length {
      MoreHeaders(a, length);
    }
  }

  lemma LaidLength(files: Files, name: string, p: nat, data: seq<byte>)
    requires name in files && p <= |files[name]|
    ensures |Laid(files, name, p, data)[name]| == MaxOf(|files[name]|, p + |data|)
  {
  }

  /** Bytes to put into the current header. */
  function ChunkSize(n: nat, room: nat): nat {
    if n > room then room else n
  }

  lemma FirstAndRest(sectors: seq<nat>, k: nat)
    requires k < |sectors| && forall i, j :: 0 <= i < j < |sectors| ==> sectors[i] != sectors[j]
    ensures Elements(sectors[k..]) == {sectors[k]} + Elements(sectors[k + 1..])
    ensures sectors[k] !in Elements(sectors[k + 1..])
  {
    assert sectors[k..] == [sectors[k]] + sectors[k + 1..];
  }

  /** The size of the next chunk, cut down to the sectors that are left. */
  function NextChunk(rest: nat, clear: nat): nat {
    var n := Min(rest, CAPACITY);
    if clear < SectorsFor(n) then clear * SECTOR_SIZE else n
  }

  /** Bytes in the first `k` new headers, if `clear` sectors are there for `total` bytes. */
  function Filled(total: nat, clear: nat, k: nat): nat {
    Min(Min(total, clear * SECTOR_SIZE), k * CAPACITY)
  }

  /** The next new header takes the chunk that brings the write one header further, if there is a sector left. */
  lemma NextChunkFits(total: nat, clear: nat, k: nat)
    requires 0 < k < HeadersFor(total) && (k - 1) * CAPACITY < Filled(total, clear, k)
    ensures
      var done := Filled(total, clear, k);
      && SectorsFor(done) <= clear && done <= total
      && var n := NextChunk(total - done, clear - SectorsFor(done));
         && n <= CAPACITY && done + n <= total && done + n == Filled(total, clear, k + 1)
         && SectorsFor(n) <= clear - SectorsFor(done)
         && SectorsFor(done + n) == SectorsFor(done) + SectorsFor(n)
         && (n == 0 ==> done == Min(total, clear * SECTOR_SIZE))
         && (n > 0 ==> done == k * CAPACITY && k * CAPACITY < done + n)
  {
    var done := Filled(total, clear, k);
    if done == k * CAPACITY {
      GrownSectors(k, 0);
      GrownSectors(k, NextChunk(total - done, clear - SectorsFor(done)));
    }
  }

  /** The last of the new headers takes the last byte. */
  lemma AllFilled(total: nat, clear: nat, k: nat)
    requires k >= HeadersFor(total)
    ensures Filled(total, clear, k) == Min(total, clear * SECTOR_SIZE)
  {
  }

  lemma LackingIsLacks(raw: RawHeader, part: nat, parts: nat, length: nat, e: nat)
    requires HeaderOk(raw) && part < parts && e <= CAPACITY
    requires if part + 1 == parts then length == part * CAPACITY + raw.numBytes
             else raw.numBytes == CAPACITY && part * CAPACITY + CAPACITY <= length
    ensures FileSystem.Lacking(raw, e) == Lacks(length, part * CAPACITY + e)
  {
    GrownSectors(part, raw.numBytes);
    GrownSectors(part, e);
  }

  lemma NothingLacks(length: nat, e: nat)
    requires e <= length
    ensures Lacks(length, e) == 0
  {
  }

  lemma PartRoom(raw: RawHeader)
    requires HeaderOk(raw)
    ensures raw.numBytes <= CAPACITY
  {
  }

  /**
   How the first two parts of a write of `n` bytes at `p` stand: up to the end of header `part`
   or of the data, and `left` sectors are left; or the last header could not be extended.
   */
  ghost predicate Spent(p: nat, n: nat, length: nat, parts: nat, clear: nat, part: nat, success: bool, written: nat,
                        left: nat) {
    && (parts - 1) * CAPACITY <= length
    && if success then
      && p + written == Min(p + n, (part + 1) * CAPACITY)
      && clear >= Lacks(length, p + written) && left == clear - Lacks(length, p + written)
    else
      && parts > 0 && clear < Lacks(length, Within(p, n, parts)) && left == clear
      && p + written == MaxOf(p, (parts - 1) * CAPACITY)
  }

  lemma SpentHere(p: nat, n: nat, length: nat, parts: nat, clear: nat, part: nat, success: bool, written: nat,
                  left: nat)
    requires part < parts && (parts - 1) * CAPACITY <= length && p <= length
      && part * CAPACITY <= p <= (part + 1) * CAPACITY
    requires
      var e := Min(p + n, (part + 1) * CAPACITY);
      && written == (if success then e - p else 0)
      && (success <==> clear >= Lacks(length, e)) && left == if success then clear - Lacks(length, e) else clear
    ensures Spent(p, n, length, parts, clear, part, success, written, left)
  {
    hide SectorsFor;
  }

  lemma SpentNext(p: nat, n: nat, length: nat, parts: nat, clear: nat, part: nat, r: nat, was: nat, success: bool,
                  written: nat,
                  left: nat)
    requires part + 1 < parts && p <= length && r < n
    requires Spent(p, n, length, parts, clear, part, true, r, was)
    requires
      var e := Min(p + n, p + r + CAPACITY);
      && written == (if success then e - p else r)
      && (success <==> was >= Lacks(MaxOf(length, p + r), e))
      && left == if success then was - Lacks(MaxOf(length, p + r), e) else was
    ensures Spent(p, n, length, parts, clear, if success then part + 1 else part, success, written, left)
  {
    hide SectorsFor;
  }

  /** All three parts together. */
  lemma AllSpent(p: nat, n: nat, length: nat, parts: nat, clear: nat, part: nat, success: bool, start: nat, left: nat)
    requires part < parts && p <= length <= parts * CAPACITY && (parts - 1) * CAPACITY <= length && start <= n
    requires Spent(p, n, length, parts, clear, part, success, start, left)
      && (success && start < n ==> part + 1 == parts)
    ensures
      var goesOn := success && start < n;
      && AcceptedBytes(p, n, length, parts, clear) == (if goesOn then start + AcceptedNew(n - start, left) else start)
      && ClearAfter(p, n, length, parts, clear) == (if goesOn then ClearAfterNew(n - start, left) else left)
      && PartsAfter(p, n, length, parts, clear)
           == if goesOn then parts + HeadersFor(AcceptedNew(n - start, left)) else parts
  {
    hide Lacks, HeadersFor, SectorsFor;
    NoneNew();
    MorePlaces(part, parts);
  }

  lemma MorePlaces(part: nat, parts: nat)
    requires part < parts
    ensures (part + 1) * CAPACITY <= parts * CAPACITY
  {
  }

  lemma NoneNew()
    ensures SectorsFor(0) == 0 && HeadersFor(0) == 0
  {
  }

  lemma FirstChunkFits(total: nat, clear: nat)
    requires total > 0
    ensures
      var n := Min(total, CAPACITY);
      && HeadersFor(total) >= 1 && SectorsFor(n) > 0
      && (clear >= SectorsFor(n) ==> n == Filled(total, clear, 1))
  {
  }

  lemma AllLinked(total: nat, linked: nat, done: nat, sectors: seq<nat>)
    requires 0 < linked <= |sectors| == HeadersFor(total) && (linked - 1) * CAPACITY < done <= linked * CAPACITY
      && done <= total
    ensures HeadersFor(done) == linked && (done == total ==> Elements(sectors[linked..]) == {})
  {
    GrownHeaders(linked - 1, done - (linked - 1) * CAPACITY);
  }

  ghost predicate AllClear(sectors: seq<nat>, marks: seq<bool>) {
    forall i :: 0 <= i < |sectors| ==> sectors[i] < |marks| && !marks[sectors[i]]
  }

  lemma ClaimedMap(marks: seq<bool>, book: Book, marks': seq<bool>, name: string, sectors: seq<nat>)
    requires Takes(marks, marks', sectors)
    ensures MapGrows(marks, book, marks', book, name, Elements(sectors), {}) && AllClear(sectors, marks)
  {
  }

  lemma MapGrowsAfter(m0: seq<bool>, b0: Book, m1: seq<bool>, b1: Book, m2: seq<bool>, b2: Book, name: string,
                      spare: set<nat>)
    requires MapGrows(m0, b0, m1, b1, name, {}, {}) && MapGrows(m1, b1, m2, b2, name, spare, {})
    ensures MapGrows(m0, b0, m2, b2, name, spare, {})
  {
    hide SectorsOf;
  }

  /**
   Writing `rest` bytes behind full headers with `clear` sectors clear takes `written` and leaves `left`: `h` header
   sectors are claimed, or nothing; the first header is filled as planned, or none; then the sectors are used up.
   */
  ghost predicate NewTaken(rest: nat, clear: nat, written: nat, left: int) {
    var h := DivRoundUp(DivRoundUp(rest, SECTOR_SIZE), NUM_DIRECT);
    var first := DivRoundUp(Min(rest, CAPACITY), SECTOR_SIZE);
    && (clear < h ==> written == 0 && left == clear)
    && (h <= clear < h + first ==> written == 0 && left == clear - h)
    && (clear >= h + first ==>
         written == Min(rest, (clear - h) * SECTOR_SIZE) && left == clear - h - DivRoundUp(written, SECTOR_SIZE))
  }

  /** The same for a write of `n` bytes at `p` to a file of `length` bytes in `parts` headers, up to offset `taken`. */
  ghost predicate Taken(p: nat, n: nat, length: nat, parts: nat, clear: nat, taken: nat, left: int)
    requires length <= parts * CAPACITY
  {
    var end, room := p + n, parts * CAPACITY;
    var lacks := DivRoundUp(MaxOf(length, Min(end, room)), SECTOR_SIZE) - DivRoundUp(length, SECTOR_SIZE);
    if clear < lacks then taken == MaxOf(p, room - CAPACITY) && left == clear
    else if end <= room then taken == end && left == clear - lacks
    else taken >= room && clear >= lacks && NewTaken(end - room, clear - lacks, taken - room, left)
  }

  lemma RoundsUp(n: nat, s: nat)
    requires s > 0
    ensures DivRoundUp(n, s) * s >= n && forall k: nat :: k * s >= n ==> DivRoundUp(n, s) <= k
  {
    var q, r := n / s, n % s;
    assert n == q * s + r;
    assert (DivRoundUp(n, s) - 1) * s < n || n == 0;
    forall k: nat | k * s >= n
      ensures DivRoundUp(n, s) <= k
    {
      ScalesUp(k, DivRoundUp(n, s) - 1, s);
    }
  }

  lemma ScalesUp(a: int, b: int, s: nat)
    ensures a <= b ==> a * s <= b * s
  {
    assert b * s == a * s + (b - a) * s;
  }

  lemma NewAccount(rest: nat, clear: nat)
    requires rest > 0
    ensures NewTaken(rest, clear, AcceptedNew(rest, clear), ClearAfterNew(rest, clear))
  {
    hide DivRoundUp;
    NoneNew();
    HeaderCount(rest);
  }

  /** The functions that keep the account say the same. */
  lemma PlainAccount(p: nat, n: nat, length: nat, parts: nat, clear: nat)
    requires p <= length <= parts * CAPACITY && parts > 0 && n > 0
    ensures Taken(p, n, length, parts, clear, p + AcceptedBytes(p, n, length, parts, clear),
                  ClearAfter(p, n, length, parts, clear))
  {
    hide DivRoundUp, NewTaken;
    NoneNew();
    var e := Within(p, n, parts);
    if p + n > e && clear >= Lacks(length, e) {
      NewAccount(p + n - e, clear - Lacks(length, e));
    }
  }

  lemma StraysOfWrite(fs: Fs, book: Book, fs': Fs, book': Book, name: string, spare: set<nat>)
    requires FsInv(fs, book) && FsInv(fs', book') && name in book.files && name in book'.files
    requires MapGrows(fs.marks, book, fs'.marks, book', name, spare, {})
    ensures Strays(fs.marks, fs'.marks, book', name) <= spare
    ensures |Strays(fs.marks, fs'.marks, book', name)|
         == ClearCount(fs.marks) - ClearCount(fs'.marks) - (|book'.files[name]| - |book.files[name]|)
          - DivRoundUp(|FileBytes(fs', book', name)|, SECTOR_SIZE)
          + DivRoundUp(|FileBytes(fs, book, name)|, SECTOR_SIZE)
  {
    hide Backed, SectorsOf, DivRoundUp, ClearCount;
    assert FileOk(fs.disk, book, name) && FileOk(fs'.disk, book', name);
    SectorsCount(fs, book, name);
    SectorsCount(fs', book', name);
    CountStrays(fs, book, fs', book', name);
  }

  /** Behind full headers: what was claimed and not linked has gone astray. */
  lemma StraysOfNew(fs: Fs, book: Book, fs': Fs, book': Book, name: string, spare: set<nat>, h: nat, written: nat)
    requires FsInv(fs, book) && FsInv(fs', book') && name in book.files && name in book'.files
    requires MapGrows(fs.marks, book, fs'.marks, book', name, spare, {})
    requires |FileBytes(fs, book, name)| == |book.files[name]| * CAPACITY
    requires |FileBytes(fs', book', name)| == |FileBytes(fs, book, name)| + written
    requires ClearCount(fs'.marks) == ClearCount(fs.marks) - h - SectorsFor(written)
    ensures |Strays(fs.marks, fs'.marks, book', name)| == h - (|book'.files[name]| - |book.files[name]|)
  {
    hide FsInv, SectorsOf, DivRoundUp, ClearCount, MapGrows, FileBytes;
    StraysOfWrite(fs, book, fs', book', name, spare);
    GrownSectors(|book.files[name]|, 0);
    GrownSectors(|book.files[name]|, written);
    NoneNew();
  }

  class OpenFile {
    const fs: FileSystem
    const sector: nat
    ghost const name: string
    var hdr: RawHeader
    var seekPosition: nat
    var currentSector: nat
    ghost var part: nat   // which header of the file `currentSector` is

    /** A handle at a header of its file, within the header's bytes; the files are `files`. */
    ghost predicate Writing(files: Files)
      reads this, fs
    {
      && fs.Valid() && currentSector < NUM_SECTORS
      && fs.At(files, name, part, currentSector, Raw(fs.disk, currentSector))
      && seekPosition <= Raw(fs.disk, currentSector).numBytes
    }

    /** The offset in the whole file at which the next write starts. */
    ghost function Position(): nat
      reads this
    {
      part * CAPACITY + seekPosition
    }

    /** Opens the file whose first header is in `sectorParam`. */
    constructor (fs: FileSystem, sectorParam: nat, ghost name: string)
      requires fs.Valid() && name in fs.directory && fs.directory[name] == sectorParam
      ensures this.fs == fs && this.name == name && sector == sectorParam
      ensures Writing(fs.Files()) && Position() == 0 && part == 0 && hdr == Raw(fs.disk, currentSector)
    {
      OwnersOf(fs.State(), fs.book, name, 0);
      this.fs, this.name := fs, name;
      hdr := Raw(fs.disk, sectorParam);
      seekPosition := 0;
      sector := sectorParam;
      currentSector := sectorParam;
      part := 0;
    }

    lemma PositionInFile(files: Files)
      requires Writing(files)
      ensures Position() <= |files[name]|
    {
      fs.PartFacts(files, name, part, currentSector, Raw(fs.disk, currentSector));
    }

    /** One chunk at the current position of the current header, which has to have room for it. */
    method PutHere(chunk: seq<byte>, ghost files: Files) returns (success: bool)
      requires Writing(files) && chunk != [] && hdr == Raw(fs.disk, currentSector) && seekPosition + |chunk| <= CAPACITY
      modifies this`hdr, this`seekPosition, fs`disk, fs`freeMapFile, fs`book
      ensures fs.book.files == old(fs.book.files)
      ensures Position() == old(Position()) + (if success then |chunk| else 0)
      ensures success <==> old(ClearCount(fs.freeMapFile)) >= FileSystem.Lacking(old(hdr), old(seekPosition) + |chunk|)
      ensures !success ==> Writing(files) && unchanged(fs)
      ensures success ==>
        && old(Position()) <= |files[name]|
        && Writing(Laid(files, name, old(Position()), chunk)) && hdr == Raw(fs.disk, currentSector)
        && ClearCount(fs.freeMapFile)
             == old(ClearCount(fs.freeMapFile)) - FileSystem.Lacking(old(hdr), old(seekPosition) + |chunk|)
      ensures MapGrows(old(fs.freeMapFile), old(fs.book), fs.freeMapFile, fs.book, name, {}, {})
    {
      hide FileOk, Backed, Lay, ClearCount, Decode, DivRoundUp, Listed, DistinctData, Encodable, MapGrows;
      PositionInFile(files);
      fs.PartFacts(files, name, part, currentSector, hdr);
      success, hdr := fs.PutInHeader(files, name, part, currentSector, hdr, chunk, seekPosition);
      if success {
        seekPosition := seekPosition + |chunk|;
      }
    }

    /** What the header lacks is what the file lacks. */
    lemma LackingHere(files: Files, e: nat)
      requires Writing(files) && hdr == Raw(fs.disk, currentSector) && e <= CAPACITY
      ensures FileSystem.Lacking(hdr, e) == Lacks(|files[name]|, part * CAPACITY + e)
    {
      hide FileOk, Backed, Decode, Listed, DistinctData, Encodable;
      fs.PartFacts(files, name, part, currentSector, hdr);
      LackingIsLacks(hdr, part, |fs.Chain(name)|, |files[name]|, e);
    }

    /** The same, told by the length of the file. */
    method PutChunk(chunk: seq<byte>, ghost files: Files) returns (success: bool)
      requires Writing(files) && chunk != [] && hdr == Raw(fs.disk, currentSector) && seekPosition + |chunk| <= CAPACITY
      modifies this`hdr, this`seekPosition, fs`disk, fs`freeMapFile, fs`book
      ensures fs.book.files == old(fs.book.files)
      ensures Position() == old(Position()) + (if success then |chunk| else 0)
      ensures !success ==> Writing(files) && unchanged(fs)
      ensures success ==>
        && old(Position()) <= |files[name]|
        && Writing(Laid(files, name, old(Position()), chunk)) && hdr == Raw(fs.disk, currentSector)
      ensures
        var lacks, clear := Lacks(|files[name]|, old(Position()) + |chunk|), old(ClearCount(fs.freeMapFile));
        && (success <==> clear >= lacks)
        && ClearCount(fs.freeMapFile) == if success then clear - lacks else clear
      ensures MapGrows(old(fs.freeMapFile), old(fs.book), fs.freeMapFile, fs.book, name, {}, {})
    {
      hide FileOk, Backed, Lay, ClearCount, Decode, DivRoundUp, Listed, DistinctData, Encodable, HeaderOk,
        FileSystem.Lacking,
        Laid, MapGrows, Lacks;
      LackingHere(files, seekPosition + |chunk|);
      success := PutHere(chunk, files);
    }

    /** `r` bytes of `from` have been written at `p`, and the handle stands right behind them. */
    ghost predicate Progress(files: Files, p: nat, from: seq<byte>, r: nat)
      reads this, fs
    {
      && name in files && p <= |files[name]| && r <= |from|
      && Writing(Laid(files, name, p, from[..r])) && Position() == p + r
    }

    /** What can be said of the length of the file and of where the handle stands in it. */
    lemma Lengths(files: Files, p: nat, from: seq<byte>, r: nat)
      requires Progress(files, p, from, r)
      ensures
        var length, parts := MaxOf(|files[name]|, p + r), |fs.Chain(name)|;
        && part < parts && (parts - 1) * CAPACITY <= length <= parts * CAPACITY
        && part * CAPACITY <= p + r <= (part + 1) * CAPACITY
        && |Laid(files, name, p, from[..r])[name]| == length
        && (Raw(fs.disk, currentSector).next == 0 <==> part + 1 == parts)
    {
      hide FileOk, Backed, Decode, Listed, DistinctData, Encodable, Lay;
      var now := Laid(files, name, p, from[..r]);
      fs.PartFacts(now, name, part, currentSector, Raw(fs.disk, currentSector));
      LaidLength(files, name, p, from[..r]);
      fs.LastPart(now, name);
    }

    lemma FileLength(files: Files, p: nat, from: seq<byte>, r: nat)
      requires Progress(files, p, from, r)
      ensures FsInv(fs.State(), fs.book) && name in fs.book.files
      ensures |FileBytes(fs.State(), fs.book, name)| == MaxOf(|files[name]|, p + r)
    {
      hide FileOk, Backed, Decode, Listed, DistinctData, Encodable, Lay;
      LaidLength(files, name, p, from[..r]);
      assert fs.Files()[name] == FileBytes(fs.State(), fs.book, name);
    }

    /** The first part of `Write`: as much as the current header can take. */
    method WriteHere(from: seq<byte>, ghost files: Files, ghost p: nat) returns (success: bool, written: nat)
      requires Progress(files, p, from, 0) && from != [] && hdr == Raw(fs.disk, currentSector)
      modifies this`hdr, this`seekPosition, fs`disk, fs`freeMapFile, fs`book
      ensures fs.book.files == old(fs.book.files)
      ensures Progress(files, p, from, written)
      ensures success ==> hdr == Raw(fs.disk, currentSector) && (written == |from| || seekPosition == CAPACITY)
      ensures Spent(p, |from|, |files[name]|, |fs.Chain(name)|, old(ClearCount(fs.freeMapFile)), part, success, written,
                    ClearCount(fs.freeMapFile))
      ensures MapGrows(old(fs.freeMapFile), old(fs.book), fs.freeMapFile, fs.book, name, {}, {})
    {
      hide FileOk, Backed, Lay, ClearCount, Decode, DistinctData, Encodable, DivRoundUp, HeaderOk, Laid, MapGrows,
        Lacks, Spent, Listed;
      success, written := true, 0;
      Lengths(files, p, from, 0);
      ghost var now := Laid(files, name, p, from[..0]);
      fs.PartFacts(now, name, part, currentSector, hdr);
      PartRoom(hdr);
      NothingLacks(|files[name]|, p);
      var bytes := ChunkSize(|from|, CAPACITY - seekPosition);
      ghost var clear := ClearCount(fs.freeMapFile);
      LaidNext(files, name, p, from, 0, bytes);
      MapStays(fs.freeMapFile, fs.book, name);
      if bytes > 0 {
        success := PutChunk(from[0..bytes], now);
        if success {
          written := bytes;
        }
      }
      SpentHere(p, |from|, |files[name]|, |fs.Chain(name)|, clear, part, success, written, ClearCount(fs.freeMapFile));
    }

    /** Steps to the next header of a full one. */
    method Advance(ghost files: Files)
      requires Writing(files) && hdr == Raw(fs.disk, currentSector) && hdr.next != 0 && seekPosition == CAPACITY
      modifies this
      ensures Writing(files) && hdr == Raw(fs.disk, currentSector)
      ensures seekPosition == 0 && part == old(part) + 1 && Position() == old(Position())
    {
      fs.PartFacts(files, name, part, currentSector, hdr);
      OwnersOf(fs.State(), fs.book, name, part + 1);
      currentSector := hdr.next;
      hdr := Raw(fs.disk, currentSector);
      seekPosition := 0;
      part := part + 1;
    }

    /** One existing header further: the chunk goes in whole, or nothing changes and the handle stays. */
    method WriteNextExisting(from: seq<byte>, ghost files: Files, ghost p: nat, r: nat, ghost clear: nat)
      returns (success: bool, written: nat)
      requires Progress(files, p, from, r) && r < |from|
      requires hdr == Raw(fs.disk, currentSector) && hdr.next != 0 && seekPosition == CAPACITY
      requires Spent(p, |from|, |files[name]|, |fs.Chain(name)|, clear, part, true, r, ClearCount(fs.freeMapFile))
      modifies this, fs`disk, fs`freeMapFile, fs`book
      ensures fs.book.files == old(fs.book.files)
      ensures Progress(files, p, from, written)
      ensures r <= written && (success ==> r < written)
      ensures success ==> hdr == Raw(fs.disk, currentSector) && (written == |from| || seekPosition == CAPACITY)
      ensures Spent(p, |from|, |files[name]|, |fs.Chain(name)|, clear, part, success, written,
        ClearCount(fs.freeMapFile))
      ensures MapGrows(old(fs.freeMapFile), old(fs.book), fs.freeMapFile, fs.book, name, {}, {})
    {
      hide FileOk, Backed, Lay, ClearCount, Decode, DistinctData, Encodable, DivRoundUp, HeaderOk, Laid, MapGrows,
        Lacks, Spent, Listed;
      Lengths(files, p, from, r);
      ghost var now, left := Laid(files, name, p, from[..r]), ClearCount(fs.freeMapFile);
      var previousSector, previousPosition := currentSector, seekPosition;
      ghost var previousPart := part;
      Advance(now);
      var bytes := ChunkSize(|from| - r, CAPACITY);
      LaidNext(files, name, p, from, r, bytes);
      success := PutChunk(from[r..r + bytes], now);
      written := r;
      if success {
        written := r + bytes;
      } else {
        currentSector, seekPosition, part := previousSector, previousPosition, previousPart;
      }
      SpentNext(p, |from|, |files[name]|, |fs.Chain(name)|, clear, previousPart, r, left, success, written,
                ClearCount(fs.freeMapFile));
    }

    /** The second part of `Write`: on through the headers that the file already has. */
    method WriteExisting(from: seq<byte>, ghost files: Files, ghost p: nat, start: nat, ghost clear: nat)
      returns (success: bool, written: nat)
      requires Progress(files, p, from, start) && hdr == Raw(fs.disk, currentSector)
      requires start == |from| || seekPosition == CAPACITY
      requires Spent(p, |from|, |files[name]|, |fs.Chain(name)|, clear, part, true, start, ClearCount(fs.freeMapFile))
      modifies this, fs`disk, fs`freeMapFile, fs`book
      ensures fs.book.files == old(fs.book.files)
      ensures start <= written && Progress(files, p, from, written)
      ensures success ==> hdr == Raw(fs.disk, currentSector)
      ensures success ==> written == |from| || (seekPosition == CAPACITY && hdr.next == 0)
      ensures Spent(p, |from|, |files[name]|, |fs.Chain(name)|, clear, part, success, written,
        ClearCount(fs.freeMapFile))
      ensures MapGrows(old(fs.freeMapFile), old(fs.book), fs.freeMapFile, fs.book, name, {}, {})
    {
      hide FileOk, Backed, Lay, ClearCount, Decode, Listed, Spent, MapGrows, Laid;
      success, written := true, start;
      MapStays(fs.freeMapFile, fs.book, name);
      while success && written < |from| && hdr.next != 0
        invariant start <= written <= |from| && Progress(files, p, from, written) && fs.book.files == old(fs.book.files)
        invariant success ==> hdr == Raw(fs.disk, currentSector) && (written == |from| || seekPosition == CAPACITY)
        invariant Spent(p, |from|, |files[name]|, |fs.Chain(name)|, clear, part, success, written,
          ClearCount(fs.freeMapFile))
        invariant MapGrows(old(fs.freeMapFile), old(fs.book), fs.freeMapFile, fs.book, name, {}, {})
        decreases success, |from| - written
      {
        ghost var marks, book := fs.freeMapFile, fs.book;
        success, written := WriteNextExisting(from, files, p, written, clear);
        MapGrowsOn(old(fs.freeMapFile), old(fs.book), marks, book, fs.freeMapFile, fs.book, name, {}, {}, {});
      }
    }

    /**
     One new header for the next chunk of `from`, behind the full last one;
     `spare` are the header sectors claimed for later.
     */
    method PutInNewHeader(from: seq<byte>, ghost files: Files, ghost p: nat, r: nat, n: nat, g: nat,
                          ghost spare: set<nat>)
      returns (success: bool)
      requires Progress(files, p, from, r) && hdr == Raw(fs.disk, currentSector) && hdr.next == 0
        && seekPosition == CAPACITY
      requires 0 < n <= CAPACITY && r + n <= |from| && fs.Claimed({g} + spare) && g !in spare
      modifies this, fs`disk, fs`freeMapFile, fs`book
      ensures success <==> old(ClearCount(fs.freeMapFile)) >= SectorsFor(n)
      ensures !success ==> unchanged(this) && unchanged(fs)
      ensures success ==> ClearCount(fs.freeMapFile) == old(ClearCount(fs.freeMapFile)) - SectorsFor(n)
      ensures success ==>
        && Progress(files, p, from, r + n) && hdr == Raw(fs.disk, currentSector) && hdr.next == 0
        && seekPosition == n && fs.Claimed(spare) && part == old(part) + 1
        && |fs.Chain(name)| == part + 1
      ensures success ==>
        && MapGrows(old(fs.freeMapFile), old(fs.book), fs.freeMapFile, fs.book, name, {}, {g})
        && g in SectorsOf(fs.book, name)
    {
      hide FileOk, Backed, ClearCount, Decode, DivRoundUp, Listed, Spare, HeaderOk, Encodable, DistinctData, Lay;
      ghost var now := Laid(files, name, p, from[..r]);
      fs.PartFacts(now, name, part, currentSector, hdr);
      LaidAtEnd(files, name, p, from, r, n);
      hide Laid;
      var raw;
      success, raw := fs.AppendHeader(now, name, part, currentSector, hdr, g, spare, from[r..r + n]);
      if success {
        hdr := raw;
        currentSector := g;
        part := part + 1;
        seekPosition := n;
        fs.PartFacts(Laid(files, name, p, from[..r + n]), name, part, currentSector, hdr);
      }
    }

    /** The third part of `Write`: claim header sectors, then link and fill new headers while space lasts. */
    method WriteNew(from: seq<byte>, ghost files: Files, ghost p: nat, start: nat) returns (written: nat)
      requires Progress(files, p, from, start) && start < |from|
      requires hdr == Raw(fs.disk, currentSector) && hdr.next == 0 && seekPosition == CAPACITY
      modifies this, fs`disk, fs`freeMapFile, fs`book
      ensures start <= written && Progress(files, p, from, written)
      ensures written - start == AcceptedNew(|from| - start, old(ClearCount(fs.freeMapFile)))
      ensures ClearCount(fs.freeMapFile) == ClearAfterNew(|from| - start, old(ClearCount(fs.freeMapFile)))
      ensures |fs.Chain(name)| == old(|fs.Chain(name)|) + HeadersFor(written - start)
      ensures exists spare ::
        && MapGrows(old(fs.freeMapFile), old(fs.book), fs.freeMapFile, fs.book, name, spare, {})
        && (written == |from| ==> spare == {})
      ensures NewTaken(|from| - start, old(ClearCount(fs.freeMapFile)), written - start, ClearCount(fs.freeMapFile))
      ensures
        var h := DivRoundUp(DivRoundUp(|from| - start, SECTOR_SIZE), NUM_DIRECT);
        if old(ClearCount(fs.freeMapFile)) < h then fs.freeMapFile == old(fs.freeMapFile)
        else
          |Strays(old(fs.freeMapFile), fs.freeMapFile, fs.book, name)| == h - (|fs.Chain(name)| - old(|fs.Chain(name)|))
    {
      hide FileOk, Backed, ClearCount, Decode, DivRoundUp, Lay, Laid, HeaderOk, Encodable, MapGrows, HeadersFor, Listed,
        DistinctData, NewTaken;
      written := start;
      MapStays(fs.freeMapFile, fs.book, name);
      Lengths(files, p, from, start);
      var total := |from| - start;
      var headers := DivRoundUp(SectorsFor(total), NUM_DIRECT);
      HeaderCount(total);
      NoneNew();
      NewAccount(total, ClearCount(fs.freeMapFile));
      if ClearCount(fs.freeMapFile) < headers {
        return;
      }
      written := ClaimAndFill(from, files, p, start, headers);
    }

    /** The same, with sectors enough for the headers. */
    method ClaimAndFill(from: seq<byte>, ghost files: Files, ghost p: nat, start: nat, headers: nat)
      returns (written: nat)
      requires Progress(files, p, from, start) && start < |from| && headers == HeadersFor(|from| - start)
      requires hdr == Raw(fs.disk, currentSector) && hdr.next == 0 && seekPosition == CAPACITY
      requires ClearCount(fs.freeMapFile) >= headers
      modifies this, fs`disk, fs`freeMapFile, fs`book
      ensures start <= written && Progress(files, p, from, written)
      ensures
        var total, clear := |from| - start, old(ClearCount(fs.freeMapFile)) - headers;
        && written - start == (if clear < SectorsFor(Min(total, CAPACITY)) then 0 else Min(total, clear * SECTOR_SIZE))
        && ClearCount(fs.freeMapFile) == clear - SectorsFor(written - start)
      ensures |fs.Chain(name)| == old(|fs.Chain(name)|) + HeadersFor(written - start)
      ensures exists spare ::
        && MapGrows(old(fs.freeMapFile), old(fs.book), fs.freeMapFile, fs.book, name, spare, {})
        && (written == |from| ==> spare == {})
      ensures |Strays(old(fs.freeMapFile), fs.freeMapFile, fs.book, name)|
           == headers - (|fs.Chain(name)| - old(|fs.Chain(name)|))
    {
      hide FileOk, Backed, ClearCount, Decode, DivRoundUp, Lay, Laid, HeaderOk, Encodable, Spare, MapGrows, HeadersFor,
        Listed, DistinctData, Takes, AllClear, SectorsFor, FileBytes, Lowest;
      ghost var state, book := fs.State(), fs.book;
      Lengths(files, p, from, start);
      FileLength(files, p, from, start);
      var sectors := fs.ClaimSectors(Laid(files, name, p, from[..start]), name, part, currentSector, hdr, headers);
      ClaimedMap(state.marks, book, fs.freeMapFile, name, sectors);
      written := FillNewHeaders(from, files, p, start, sectors, state.marks, book);
      ghost var spare :| MapGrows(state.marks, book, fs.freeMapFile, fs.book, name, spare, {})
          && (written == |from| ==> spare == {});
      FileLength(files, p, from, written);
      StraysOfNew(state, book, fs.State(), fs.book, name, spare, headers, written - start);
    }

    /** `linked` new headers have been filled: how far that is, and what is left to go on with. */
    ghost predicate Filling(files: Files, p: nat, from: seq<byte>, start: nat, sectors: seq<nat>, first: nat,
                            clear: nat, marks: seq<bool>, book: Book, linked: nat, written: nat)
      reads this, fs
    {
      && start <= written <= |from| && 0 < linked <= |sectors| == HeadersFor(|from| - start)
      && Progress(files, p, from, written) && hdr == Raw(fs.disk, currentSector) && hdr.next == 0
      && fs.Claimed(Elements(sectors[linked..])) && part == first + linked && |fs.Chain(name)| == part + 1
      && written - start == Filled(|from| - start, clear, linked)
      && (linked - 1) * CAPACITY < written - start && seekPosition == written - start - (linked - 1) * CAPACITY
      && SectorsFor(written - start) <= clear && ClearCount(fs.freeMapFile) == clear - SectorsFor(written - start)
      && MapGrows(marks, book, fs.freeMapFile, fs.book, name, Elements(sectors[linked..]), {})
      && AllClear(sectors, marks)
    }

    /** The next of the new headers, cut down to the space that is left. */
    method FillNext(from: seq<byte>, ghost files: Files, ghost p: nat, ghost start: nat, sectors: seq<nat>,
                    ghost first: nat,
                    ghost clear: nat, ghost marks: seq<bool>, ghost book: Book, linked: nat, r: nat)
      returns (success: bool, written: nat)
      requires Filling(files, p, from, start, sectors, first, clear, marks, book, linked, r) && linked < |sectors|
      requires forall i, j :: 0 <= i < j < |sectors| ==> sectors[i] != sectors[j]
      modifies this, fs`disk, fs`freeMapFile, fs`book
      ensures !success ==> written == r && r - start == Min(|from| - start, clear * SECTOR_SIZE)
      ensures Filling(files, p, from, start, sectors, first, clear, marks, book,
                      if success then linked + 1 else linked, written)
    {
      hide FileOk, Backed, Listed, Decode, Lay, Laid, ClearCount, DivRoundUp, SectorsFor, NextChunk, Spare, Filled,
        HeadersFor, Elements,
        MapGrows;
      NextChunkFits(|from| - start, clear, linked);
      var bytes := NextChunk(|from| - r, ClearCount(fs.freeMapFile));
      success, written := false, r;
      if bytes > 0 {
        FirstAndRest(sectors, linked);
        ghost var before, owners := fs.freeMapFile, fs.book;
        success := PutInNewHeader(from, files, p, r, bytes, sectors[linked], Elements(sectors[linked + 1..]));
        written := r + bytes;
        MapGrowsOn(marks, book, before, owners, fs.freeMapFile, fs.book, name, Elements(sectors[linked..]),
                   Elements(sectors[linked + 1..]), {sectors[linked]});
      }
    }

    /** The first new header, for which nothing is cut down. */
    method FillFirst(from: seq<byte>, ghost files: Files, ghost p: nat, start: nat, sectors: seq<nat>,
                     ghost marks: seq<bool>,
                     ghost book: Book)
      returns (success: bool, written: nat)
      requires Progress(files, p, from, start) && start < |from|
      requires hdr == Raw(fs.disk, currentSector) && hdr.next == 0 && seekPosition == CAPACITY
      requires |sectors| == HeadersFor(|from| - start) && fs.Claimed(Elements(sectors))
      requires forall i, j :: 0 <= i < j < |sectors| ==> sectors[i] != sectors[j]
      requires MapGrows(marks, book, fs.freeMapFile, fs.book, name, Elements(sectors), {}) && AllClear(sectors, marks)
      modifies this, fs`disk, fs`freeMapFile, fs`book
      ensures success <==> old(ClearCount(fs.freeMapFile)) >= SectorsFor(Min(|from| - start, CAPACITY))
      ensures !success ==> written == start && unchanged(this) && unchanged(fs)
      ensures success ==>
        Filling(files, p, from, start, sectors, old(part), old(ClearCount(fs.freeMapFile)), marks, book, 1, written)
    {
      hide FileOk, Backed, Listed, Decode, Lay, Laid, ClearCount, DivRoundUp, SectorsFor, NextChunk, Spare, HeadersFor,
        Elements, MapGrows;
      var total := |from| - start;
      var n := Min(total, CAPACITY);
      written := start;
      FirstChunkFits(total, ClearCount(fs.freeMapFile));
      FirstAndRest(sectors, 0);
      assert sectors[0..] == sectors;
      ghost var before, owners := fs.freeMapFile, fs.book;
      success := PutInNewHeader(from, files, p, start, n, sectors[0], Elements(sectors[1..]));
      if success {
        written := written + n;
        MapGrowsOn(marks, book, before, owners, fs.freeMapFile, fs.book, name, Elements(sectors),
                   Elements(sectors[1..]), {sectors[0]});
      }
    }

    /** The first new header and the loop over the others. */
    method FillNewHeaders(from: seq<byte>, ghost files: Files, ghost p: nat, start: nat, sectors: seq<nat>,
                          ghost marks: seq<bool>, ghost book: Book)
      returns (written: nat)
      requires Progress(files, p, from, start) && start < |from|
      requires hdr == Raw(fs.disk, currentSector) && hdr.next == 0 && seekPosition == CAPACITY
      requires |sectors| == HeadersFor(|from| - start) && fs.Claimed(Elements(sectors))
      requires forall i, j :: 0 <= i < j < |sectors| ==> sectors[i] != sectors[j]
      requires MapGrows(marks, book, fs.freeMapFile, fs.book, name, Elements(sectors), {}) && AllClear(sectors, marks)
      modifies this, fs`disk, fs`freeMapFile, fs`book
      ensures start <= written && Progress(files, p, from, written)
      ensures
        var total, clear := |from| - start, old(ClearCount(fs.freeMapFile));
        && written - start == (if clear < SectorsFor(Min(total, CAPACITY)) then 0 else Min(total, clear * SECTOR_SIZE))
        && ClearCount(fs.freeMapFile) == clear - SectorsFor(written - start)
      ensures |fs.Chain(name)| == old(|fs.Chain(name)|) + HeadersFor(written - start)
      ensures exists spare ::
        && MapGrows(marks, book, fs.freeMapFile, fs.book, name, spare, {})
        && (written == |from| ==> spare == {})
    {
      hide FileOk, Backed, Listed, Decode, Lay, Laid, ClearCount, DivRoundUp, SectorsFor, NextChunk, Spare, HeadersFor,
        Elements, MapGrows;
      ghost var first, clear := part, ClearCount(fs.freeMapFile);
      Lengths(files, p, from, start);
      NoneNew();
      var success;
      success, written := FillFirst(from, files, p, start, sectors, marks, book);
      if !success {
        return;
      }
      var linked := 1;
      while linked < |sectors| && success
        invariant Filling(files, p, from, start, sectors, first, clear, marks, book, linked, written)
        invariant !success ==> written - start == Min(|from| - start, clear * SECTOR_SIZE)
        decreases |sectors| - linked, success
      {
        success, written := FillNext(from, files, p, start, sectors, first, clear, marks, book, linked, written);
        if success {
          linked := linked + 1;
        }
      }
      if success {
        AllFilled(|from| - start, clear, linked);
      }
      AllLinked(|from| - start, linked, written - start, sectors);
    }

    /** The first two parts of `Write`: what goes into the headers that the file has. */
    method WriteInside(from: seq<byte>, ghost files: Files, ghost p: nat) returns (success: bool, written: nat)
      requires Progress(files, p, from, 0) && from != [] && hdr == Raw(fs.disk, currentSector)
      modifies this, fs`disk, fs`freeMapFile, fs`book
      ensures fs.book.files == old(fs.book.files)
      ensures Progress(files, p, from, written)
      ensures success ==> hdr == Raw(fs.disk, currentSector)
      ensures success ==> written == |from| || (seekPosition == CAPACITY && hdr.next == 0)
      ensures Spent(p, |from|, |files[name]|, |fs.Chain(name)|, old(ClearCount(fs.freeMapFile)), part, success, written,
                    ClearCount(fs.freeMapFile))
      ensures MapGrows(old(fs.freeMapFile), old(fs.book), fs.freeMapFile, fs.book, name, {}, {})
    {
      hide FileOk, Backed, Lay, ClearCount, Decode, Listed, Spent, MapGrows, Laid, HeaderOk;
      ghost var clear := ClearCount(fs.freeMapFile);
      success, written := WriteHere(from, files, p);
      if success {
        ghost var marks, book := fs.freeMapFile, fs.book;
        success, written := WriteExisting(from, files, p, written, clear);
        MapGrowsOn(old(fs.freeMapFile), old(fs.book), marks, book, fs.freeMapFile, fs.book, name, {}, {}, {});
      }
    }

    /**
     `OpenFile::Write`: `from` is laid over the file at the current position, up to the byte
     where space ran out, which the free sectors and the size of the file determine; no other
     file changes, and sectors are only marked for this one, but for those claimed for headers
     that could not be filled.
     */
    method Write(from: seq<byte>, isDirectory: bool) returns (result: nat)
      requires fs.Valid() && Writing(fs.Files()) && IsOpened() && from != []
      modifies this, fs`disk, fs`freeMapFile, fs`book
      ensures fs.Valid() && Writing(fs.Files()) && IsOpened() && result <= |from|
      ensures
        var p := if isDirectory then 0 else old(Position());
        && p <= |old(fs.Files())[name]|
        && fs.Files() == Laid(old(fs.Files()), name, p, from[..result])
        && Position() == p + result
      ensures
        var p := if isDirectory then 0 else old(Position());
        var length, parts, clear := |old(fs.Files())[name]|, old(|fs.Chain(name)|), old(ClearCount(fs.freeMapFile));
        && parts > 0 && (parts - 1) * CAPACITY <= length <= parts * CAPACITY
        && result == AcceptedBytes(p, |from|, length, parts, clear)
        && ClearCount(fs.freeMapFile) == ClearAfter(p, |from|, length, parts, clear)
        && |fs.Chain(name)| == PartsAfter(p, |from|, length, parts, clear)
      ensures exists spare ::
        && MapGrows(old(fs.freeMapFile), old(fs.book), fs.freeMapFile, fs.book, name, spare, {})
        && (result == |from| ==> spare == {})
      ensures
        var p := if isDirectory then 0 else old(Position());
        Taken(p, |from|, |old(fs.Files())[name]|, old(|fs.Chain(name)|), old(ClearCount(fs.freeMapFile)), p + result,
              ClearCount(fs.freeMapFile))
      ensures
        |Strays(old(fs.freeMapFile), fs.freeMapFile, fs.book, name)|
          == old(ClearCount(fs.freeMapFile)) - ClearCount(fs.freeMapFile) - (|fs.Chain(name)| - old(|fs.Chain(name)|))
           - (DivRoundUp(|fs.Files()[name]|, SECTOR_SIZE) - DivRoundUp(|old(fs.Files())[name]|, SECTOR_SIZE))
    {
      hide FileOk, Backed, ClearCount, Decode, Lay, Listed, HeaderOk, MapGrows, AcceptedBytes, ClearAfter, PartsAfter,
        DivRoundUp, Taken, Strays, Laid;
      ghost var files, state, book := fs.Files(), fs.State(), fs.book;
      if isDirectory {
        Restart(files);
      }
      PositionInFile(files);
      hdr := Raw(fs.disk, currentSector);
      LaidNothing(files, name, Position());
      assert from[..0] == [];
      ghost var p, parts, clear := Position(), |fs.Chain(name)|, ClearCount(fs.freeMapFile);
      result := WriteAll(from, files, p);
      PlainAccount(p, |from|, |files[name]|, parts, clear);
      ghost var spare :| MapGrows(state.marks, book, fs.freeMapFile, fs.book, name, spare, {})
          && (result == |from| ==> spare == {});
      StraysOfWrite(state, book, fs.State(), fs.book, name, spare);
    }

    /** `Write`, once position and header are set. */
    method WriteAll(from: seq<byte>, ghost files: Files, ghost p: nat) returns (result: nat)
      requires Progress(files, p, from, 0) && from != [] && hdr == Raw(fs.disk, currentSector)
      modifies this, fs`disk, fs`freeMapFile, fs`book
      ensures Progress(files, p, from, result)
      ensures
        var length, parts, clear := |files[name]|, old(|fs.Chain(name)|), old(ClearCount(fs.freeMapFile));
        && parts > 0 && (parts - 1) * CAPACITY <= length <= parts * CAPACITY
        && result == AcceptedBytes(p, |from|, length, parts, clear)
        && ClearCount(fs.freeMapFile) == ClearAfter(p, |from|, length, parts, clear)
        && |fs.Chain(name)| == PartsAfter(p, |from|, length, parts, clear)
      ensures exists spare ::
        && MapGrows(old(fs.freeMapFile), old(fs.book), fs.freeMapFile, fs.book, name, spare, {})
        && (result == |from| ==> spare == {})
    {
      hide FileOk, Backed, ClearCount, Decode, Lay, Laid, Listed, HeaderOk, MapGrows, Spent, AcceptedNew,
        ClearAfterNew, HeadersFor,
        AcceptedBytes, ClearAfter, PartsAfter;
      Lengths(files, p, from, 0);
      ghost var clear, parts := ClearCount(fs.freeMapFile), |fs.Chain(name)|;
      var success;
      success, result := WriteInside(from, files, p);
      Lengths(files, p, from, result);
      AllSpent(p, |from|, |files[name]|, parts, clear, part, success, result, ClearCount(fs.freeMapFile));
      if success && result < |from| {
        ghost var marks, book := fs.freeMapFile, fs.book;
        result := WriteNew(from, files, p, result);
        ghost var spare :| MapGrows(marks, book, fs.freeMapFile, fs.book, name, spare, {})
          && (result == |from| ==> spare == {});
        MapGrowsAfter(old(fs.freeMapFile), old(fs.book), marks, book, fs.freeMapFile, fs.book, name, spare);
      }
    }

    /** Back to the start of the file. */
    method Restart(ghost files: Files)
      requires Writing(files) && IsOpened()
      modifies this`seekPosition, this`currentSector, this`part
      ensures Writing(files) && Position() == 0
    {
      seekPosition := 0;
      currentSector := sector;
      part := 0;
      OwnersOf(fs.State(), fs.book, name, 0);
    }

    /** The handle was made for the first header of its file. */
    ghost predicate IsOpened()
      reads this, fs
    {
      name in fs.directory && fs.directory[name] == sector
    }

    // ---------- reading ----------

    /** A handle whose header copy is header `part` of the file, used for reading. */
    ghost predicate Reading()
      reads this, fs
    {
      fs.IsPart(name, part, hdr) && seekPosition <= hdr.numBytes
    }

    /** What a read of `n` bytes has to return: what is there, up to the end of the file. */
    static function Portion(bytes: seq<byte>, p: nat, n: nat): seq<byte>
      requires p <= |bytes|
    {
      if p + n <= |bytes| then bytes[p..p + n] else bytes[p..]
    }

    /** Back to the first header, fetched anew. */
    method Rewind()
      requires Reading() && IsOpened()
      modifies this
      ensures Reading() && Position() == 0
    {
      OwnersOf(fs.State(), fs.book, name, 0);
      hdr := Raw(fs.disk, sector);
      seekPosition := 0;
      part := 0;
    }

    lemma ReadPosition()
      requires Reading()
      ensures Position() <= |fs.Files()[name]|
    {
      fs.PartFacts(fs.Files(), name, part, fs.Chain(name)[part], hdr);
    }

    /** `OpenFile::Read`: the next bytes of the file, across as many headers as it takes. */
    method Read(n: nat, isDirectory: bool) returns (into: seq<byte>)
      requires Reading() && IsOpened() && n > 0
      modifies this
      ensures Reading()
      ensures
        var p := if isDirectory then 0 else old(Position());
        && p <= |fs.Files()[name]|
        && into == Portion(fs.Files()[name], p, n) && Position() == p + |into|
    {
      hide FileOk, Backed, Decode, Listed;
      if isDirectory {
        Rewind();
      }
      ghost var p, bytes := Position(), fs.Files()[name];
      ReadPosition();
      var goesOn := seekPosition + n > hdr.numBytes;
      into := ReadHere([], n, p, bytes);
      if goesOn {
        into := ReadOn(into, n, p, bytes);
      }
    }

    /** `into` is what has been read from `p` on, and the handle stands behind it. */
    ghost predicate HasRead(bytes: seq<byte>, p: nat, n: nat, into: seq<byte>)
      reads this, fs
    {
      && Reading() && bytes == fs.Files()[name]
      && |into| <= n && p + |into| == Position() && Position() <= |bytes| && into == bytes[p..p + |into|]
    }

    /** Adds as much as the current header has. */
    method ReadHere(start: seq<byte>, n: nat, ghost p: nat, ghost bytes: seq<byte>) returns (into: seq<byte>)
      requires HasRead(bytes, p, n, start) && |start| < n
      modifies this`seekPosition
      ensures HasRead(bytes, p, n, into)
      ensures |into| == n || seekPosition == hdr.numBytes
    {
      hide FileOk, Backed, Decode, Listed, HeaderOk, Encodable, DistinctData;
      fs.PartFacts(fs.Files(), name, part, fs.Chain(name)[part], hdr);
      var more := ReadAt(fs.disk, hdr, n - |start|, seekPosition);
      PartOfContents(fs.State(), fs.book, name, part, seekPosition, |more|);
      seekPosition := seekPosition + |more|;
      into := start + more;
      Adjacent(bytes, p, start, more);
    }

    /** Steps to the next header once all bytes of this one have been read. */
    method FetchNext(ghost bytes: seq<byte>, ghost p: nat, n: nat, ghost into: seq<byte>)
      requires HasRead(bytes, p, n, into) && hdr.next != 0 && seekPosition == hdr.numBytes
      modifies this
      ensures HasRead(bytes, p, n, into) && part == old(part) + 1
    {
      hide FileOk, Backed, Decode, Listed, HeaderOk, Encodable, DistinctData;
      fs.PartFacts(fs.Files(), name, part, fs.Chain(name)[part], hdr);
      OwnersOf(fs.State(), fs.book, name, part + 1);
      seekPosition := 0;
      hdr := Raw(fs.disk, hdr.next);
      part := part + 1;
    }

    /** On through the following headers. */
    method ReadOn(start: seq<byte>, n: nat, ghost p: nat, ghost bytes: seq<byte>) returns (into: seq<byte>)
      requires HasRead(bytes, p, n, start) && (|start| == n || seekPosition == hdr.numBytes)
      modifies this
      ensures HasRead(bytes, p, n, into) && into == Portion(bytes, p, n)
    {
      hide FileOk, Backed, Decode, Listed;
      into := start;
      while hdr.next != 0 && |into| < n
        invariant HasRead(bytes, p, n, into) && (|into| == n || seekPosition == hdr.numBytes)
        decreases |fs.Chain(name)| - part
      {
        FetchNext(bytes, p, n, into);
        into := ReadHere(into, n, p, bytes);
      }
      fs.PartFacts(fs.Files(), name, part, fs.Chain(name)[part], hdr);
    }
  }

  lemma Adjacent(bytes: seq<byte>, p: nat, a: seq<byte>, b: seq<byte>)
    requires p + |a| + |b| <= |bytes| && a == bytes[p..p + |a|] && b == bytes[p + |a|..p + |a| + |b|]
    ensures a + b == bytes[p..p + |a + b|]
  {
  }

  /** The bytes that one header describes are the file's bytes at its place. */
  lemma PartOfContents(fs: Fs, book: Book, name: string, k: nat, pos: nat, n: nat)
    requires FsInv(fs, book) && name in book.files && k < |book.files[name]| && book.files[name][k] < NUM_SECTORS
    requires HeaderOk(Raw(fs.disk, book.files[name][k])) && pos + n <= Raw(fs.disk, book.files[name][k]).numBytes
    ensures k * CAPACITY + pos + n <= |FileBytes(fs, book, name)|
    ensures Slice(fs.disk, Raw(fs.disk, book.files[name][k]), pos, n)
         == FileBytes(fs, book, name)[k * CAPACITY + pos..k * CAPACITY + pos + n]
  {
    PartLength(fs, book, name, k);
    var disk, chain := fs.disk, book.files[name];
    assert FileOk(disk, book, name);
    var bytes, slice := FileBytes(fs, book, name), Slice(disk, Raw(disk, chain[k]), pos, n);
    forall i | 0 <= i < n
      ensures bytes[k * CAPACITY + pos + i] == slice[i]
    {
      InPart(k, pos + i);
    }
  }

  lemma InPart(k: nat, x: nat)
    requires x < CAPACITY
    ensures (k * CAPACITY + x) / CAPACITY == k && (k * CAPACITY + x) % CAPACITY == x
  {
  }
}
