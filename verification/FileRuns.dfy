/** Whole runs: writing and reading in chunks of any size, and sequences of file operations. */
module FileRuns {
  import opened Numbers
  import opened FlatMemory
  import opened Bitmaps
  import opened FileLayout
  import opened FileOwnership
  import opened FreeMaps
  import opened ByteFiles
  import opened FileSystems
  import opened OpenFiles

  function Flatten(chunks: seq<seq<byte>>): seq<byte> {
    if chunks == [] then [] else Flatten(chunks[..|chunks| - 1]) + chunks[|chunks| - 1]
  }

  lemma FlattenOneMore(chunks: seq<seq<byte>>, c: seq<byte>)
    ensures Flatten(chunks + [c]) == Flatten(chunks) + c
  {
    assert (chunks + [c])[..|chunks|] == chunks;
  }

  lemma SumOneMore(sizes: seq<nat>, i: nat)
    requires i < |sizes|
    ensures Sum(sizes[..i + 1]) == Sum(sizes[..i]) + sizes[i]
  {
    assert sizes[..i + 1][..i] == sizes[..i];
  }

  ghost predicate Chunks(chunks: seq<seq<byte>>) {
    forall i :: 0 <= i < |chunks| ==> chunks[i] != []
  }

  /** `sent` says how much of each chunk was accepted. */
  ghost predicate Accepted(sent: seq<seq<byte>>, chunks: seq<seq<byte>>) {
    |sent| <= |chunks| && forall i :: 0 <= i < |sent| ==> FrontOf(sent[i], chunks[i])
  }

  ghost predicate FrontOf(a: seq<byte>, b: seq<byte>) {
    |a| <= |b| && a == b[..|a|]
  }

  /** A handle open for writing on a file system whose files are `files`. */
  ghost predicate Open(f: OpenFile, files: Files)
    reads f, f.fs
  {
    f.fs.Valid() && f.fs.Files() == files && f.Writing(files) && f.IsOpened()
  }

  /** `sent` has been laid over the file from `p` on, and the handle stands behind it. */
  ghost predicate Sent(f: OpenFile, files: Files, p: nat, sent: seq<seq<byte>>)
    reads f, f.fs
  {
    && f.name in files && p <= |files[f.name]|
    && Open(f, Laid(files, f.name, p, Flatten(sent))) && f.Position() == p + |Flatten(sent)|
  }

  // ---------- what a sequence of writes accepts ----------

  /** What decides how much a write accepts: where it starts, the size of the file, and the sectors that are clear. */
  datatype Account = Account(p: nat, length: nat, parts: nat, clear: nat)

  predicate AccountOk(a: Account) {
    a.parts > 0 && a.p <= a.length && (a.parts - 1) * CAPACITY <= a.length <= a.parts * CAPACITY
  }

  function Took(a: Account, n: nat): nat
    requires AccountOk(a)
  {
    AcceptedBytes(a.p, n, a.length, a.parts, a.clear)
  }

  /** After a write of `n` bytes. */
  function Booked(a: Account, n: nat): (r: Account)
    requires AccountOk(a)
    ensures AccountOk(r)
  {
    BookedIsOk(a, n);
    Account(a.p + Took(a, n), MaxOf(a.length, a.p + Took(a, n)), PartsAfter(a.p, n, a.length, a.parts, a.clear),
            ClearAfter(a.p, n, a.length, a.parts, a.clear))
  }

  lemma BookedIsOk(a: Account, n: nat)
    requires AccountOk(a)
    ensures
      var length, parts := MaxOf(a.length, a.p + Took(a, n)), PartsAfter(a.p, n, a.length, a.parts, a.clear);
      && (parts - 1) * CAPACITY <= length <= parts * CAPACITY && parts > 0
      && ClearAfter(a.p, n, a.length, a.parts, a.clear) >= 0
  {
    hide SectorsFor, HeadersFor, Lacks;
    var e := Within(a.p, n, a.parts);
    NoneNew();
    if a.clear >= Lacks(a.length, e) {
      var rest, clear := a.p + n - e, a.clear - Lacks(a.length, e);
      HeadersHold(AcceptedNew(rest, clear));
      if clear >= HeadersFor(rest) {
        FewerBytes(AcceptedNew(rest, clear), clear - HeadersFor(rest));
      }
    }
  }

  lemma HeadersHold(k: nat)
    ensures k <= HeadersFor(k) * CAPACITY && (k > 0 ==> (HeadersFor(k) - 1) * CAPACITY < k)
  {
  }

  function BookedAll(a: Account, chunks: seq<seq<byte>>): (r: Account)
    requires AccountOk(a)
    ensures AccountOk(r)
  {
    if chunks == [] then a else Booked(BookedAll(a, chunks[..|chunks| - 1]), |chunks[|chunks| - 1]|)
  }

  /** What is accepted of each chunk. */
  function SentOf(a: Account, chunks: seq<seq<byte>>): (sent: seq<seq<byte>>)
    requires AccountOk(a)
    ensures |sent| == |chunks|
  {
    if chunks == [] then []
    else
      var front, last := chunks[..|chunks| - 1], chunks[|chunks| - 1];
      SentOf(a, front) + [last[..Min(|last|, Took(BookedAll(a, front), |last|))]]
  }

  lemma SentOneMore(a: Account, chunks: seq<seq<byte>>, i: nat)
    requires AccountOk(a) && i < |chunks|
    ensures
      var now := BookedAll(a, chunks[..i]);
      && BookedAll(a, chunks[..i + 1]) == Booked(now, |chunks[i]|)
      && SentOf(a, chunks[..i + 1]) == SentOf(a, chunks[..i]) + [chunks[i][..Min(|chunks[i]|, Took(now, |chunks[i]|))]]
  {
    hide Booked, Took;
    assert chunks[..i + 1][..i] == chunks[..i];
  }

  lemma {:induction false} SentIsAccepted(a: Account, chunks: seq<seq<byte>>)
    requires AccountOk(a)
    ensures Accepted(SentOf(a, chunks), chunks)
  {
    hide Booked, Took;
    if chunks != [] {
      var front, last := chunks[..|chunks| - 1], chunks[|chunks| - 1];
      SentIsAccepted(a, front);
      var sent := SentOf(a, chunks);
      forall i | 0 <= i < |sent|
        ensures FrontOf(sent[i], chunks[i])
      {
        assert i < |front| ==> sent[i] == SentOf(a, front)[i] && FrontOf(SentOf(a, front)[i], front[i]);
      }
    }
  }

  /** The account after everything up to `end` was accepted. */
  ghost predicate InFull(a: Account, r: Account, end: nat) {
    && r.p == end && r.length == MaxOf(a.length, end) && r.parts == MaxOf(a.parts, HeadersFor(end))
    && r.clear == a.clear - Needed(a.length, a.parts, end)
  }

  lemma ChunkInFull(a: Account, now: Account, end: nat, n: nat)
    requires AccountOk(a) && AccountOk(now) && InFull(a, now, end) && n > 0
    ensures Took(now, n) <= n
    ensures Took(now, n) == n <==> a.clear >= Needed(a.length, a.parts, end + n)
    ensures Took(now, n) == n ==> InFull(a, Booked(now, n), end + n)
  {
    hide Needed, HeadersFor, AcceptedBytes, ClearAfter, PartsAfter;
    NeededAdds(a.length, a.parts, end, end + n);
    AcceptedInFull(now.p, n, now.length, now.parts, now.clear);
  }

  lemma NothingInFull(a: Account)
    requires AccountOk(a)
    ensures InFull(a, a, a.p) && Needed(a.length, a.parts, a.p) == 0
  {
    MoreHeaders(a.p, a.parts * CAPACITY);
    GrownHeaders(a.parts, 0);
  }

  /**
   A session is accepted in full if and only if there are sectors enough for all of it; then it uses
   exactly those.
   */
  lemma {:induction false} SessionInFull(a: Account, chunks: seq<seq<byte>>)
    requires AccountOk(a) && Chunks(chunks)
    ensures
      var end := a.p + |Flatten(chunks)|;
      && (SentOf(a, chunks) == chunks <==> a.clear >= Needed(a.length, a.parts, end))
      && (SentOf(a, chunks) == chunks ==> InFull(a, BookedAll(a, chunks), end))
  {
    hide Needed, HeadersFor, Booked, Took, InFull, AccountOk;
    if chunks == [] {
      NothingInFull(a);
    } else {
      var front, last := chunks[..|chunks| - 1], chunks[|chunks| - 1];
      SessionInFull(a, front);
      var end := a.p + |Flatten(front)|;
      assert chunks == front + [last] && SentOf(a, chunks)[..|front|] == SentOf(a, front);
      if SentOf(a, front) == front {
        var k := Took(BookedAll(a, front), |last|);
        ChunkInFull(a, BookedAll(a, front), end, |last|);
        assert SentOf(a, chunks) == front + [last[..k]] && SentOf(a, chunks)[|front|] == last[..k];
        assert k == |last| ==> last[..k] == last;
      } else {
        NeededMore(a, end, end + |last|);
      }
    }
  }

  lemma NeededMore(a: Account, end: nat, end': nat)
    requires AccountOk(a) && end <= end'
    ensures Needed(a.length, a.parts, end) <= Needed(a.length, a.parts, end')
  {
    hide Needed, HeadersFor;
    NeededAdds(a.length, a.parts, end, end');
  }

  // ---------- writing in chunks ----------

  /** The account of a handle. */
  ghost function AccountOf(f: OpenFile): Account
    requires f.fs.Valid() && f.name in f.fs.book.files && f.name in f.fs.Files()
    reads f, f.fs
  {
    Account(f.Position(), |f.fs.Files()[f.name]|, |f.fs.Chain(f.name)|, ClearCount(f.fs.freeMapFile))
  }

  /** The first of `chunks` have been offered since the file system was as in `files`, `marks` and `book`. */
  ghost predicate Sending(f: OpenFile, files: Files, a: Account, chunks: seq<seq<byte>>, marks: seq<bool>, book: Book,
                          spare: set<nat>)
    reads f, f.fs
  {
    && AccountOk(a) && Sent(f, files, a.p, SentOf(a, chunks)) && AccountOf(f) == BookedAll(a, chunks)
    && MapGrows(marks, book, f.fs.freeMapFile, f.fs.book, f.name, spare, {})
    && (SentOf(a, chunks) == chunks ==> spare == {})
  }

  lemma StartSending(f: OpenFile, files: Files)
    requires Open(f, files)
    ensures Sending(f, files, AccountOf(f), [], f.fs.freeMapFile, f.fs.book, {})
  {
    hide FileOk, Backed, Decode, ClearCount;
    f.PositionInFile(files);
    f.fs.LastPart(files, f.name);
    LaidNothing(files, f.name, f.Position());
    MapStays(f.fs.freeMapFile, f.fs.book, f.name);
  }

  lemma OpenIsPart(f: OpenFile, files: Files)
    requires Open(f, files)
    ensures f.name in f.fs.book.files && f.name in files && f.name in f.fs.Files()
  {
  }

  /** One `Write` call of a sequence of them. */
  method WriteChunk(f: OpenFile, chunks: seq<seq<byte>>, i: nat, ghost files: Files, ghost a: Account,
                    ghost marks: seq<bool>,
                    ghost book: Book, ghost spare: set<nat>)
    returns (taken: nat, ghost spare': set<nat>)
    requires i < |chunks| && Chunks(chunks) && Sending(f, files, a, chunks[..i], marks, book, spare)
    modifies f, f.fs`disk, f.fs`freeMapFile, f.fs`book
    ensures taken <= |chunks[i]| && SentOf(a, chunks[..i + 1]) == SentOf(a, chunks[..i]) + [chunks[i][..taken]]
    ensures Sending(f, files, a, chunks[..i + 1], marks, book, spare')
  {
    hide FileOk, Backed, Decode, ClearCount, Lay, Needed, MapGrows, SentOf, BookedAll, AcceptedBytes, ClearAfter,
      PartsAfter, Listed, Laid, HeaderOk, Flatten, Taken, Strays, DivRoundUp;
    ghost var sent, now, chunk := SentOf(a, chunks[..i]), AccountOf(f), chunks[i];
    ghost var was, owners := f.fs.freeMapFile, f.fs.book;
    taken := f.Write(chunks[i], false);
    ghost var more :| MapGrows(was, owners, f.fs.freeMapFile, f.fs.book, f.name, more, {})
      && (taken == |chunk| ==> more == {});
    spare' := spare + more;
    MapGrowsBoth(marks, book, was, owners, f.fs.freeMapFile, f.fs.book, f.name, spare, more);
    SentOneMore(a, chunks, i);
    FlattenOneMore(sent, chunk[..taken]);
    LaidTwice(files, f.name, a.p, Flatten(sent), chunk[..taken]);
    LaidLength(Laid(files, f.name, a.p, Flatten(sent)), f.name, now.p, chunk[..taken]);
    assert chunks[..i + 1] == chunks[..i] + [chunk];
  }

  lemma MapGrowsBoth(m0: seq<bool>, b0: Book, m1: seq<bool>, b1: Book, m2: seq<bool>, b2: Book, name: string,
                     s1: set<nat>, s2: set<nat>)
    requires MapGrows(m0, b0, m1, b1, name, s1, {}) && MapGrows(m1, b1, m2, b2, name, s2, {})
    ensures MapGrows(m0, b0, m2, b2, name, s1 + s2, {})
  {
    hide SectorsOf;
  }

  /**
   Any sequence of `Write` calls lays the accepted bytes over the file in one piece; what is
   accepted, and how many sectors are clear afterwards, is what the account says.
   */
  method WriteChunks(f: OpenFile, chunks: seq<seq<byte>>) returns (sent: seq<seq<byte>>, ghost spare: set<nat>)
    requires f.fs.Valid() && Open(f, f.fs.Files()) && Chunks(chunks) && f.name in f.fs.book.files
      && f.name in f.fs.Files()
    modifies f, f.fs`disk, f.fs`freeMapFile, f.fs`book
    ensures AccountOk(old(AccountOf(f))) && sent == SentOf(old(AccountOf(f)), chunks)
    ensures Sending(f, old(f.fs.Files()), old(AccountOf(f)), chunks, old(f.fs.freeMapFile), old(f.fs.book), spare)
  {
    hide FileOk, Backed, Decode, ClearCount, Lay, Needed, Flatten, Laid, Listed, MapGrows, SentOf, BookedAll;
    ghost var files, a, marks, book := f.fs.Files(), AccountOf(f), f.fs.freeMapFile, f.fs.book;
    sent, spare := [], {};
    StartSending(f, files);
    assert chunks[..0] == [] && chunks[..|chunks|] == chunks;
    NothingSent(a);
    var i := 0;
    while i < |chunks|
      invariant 0 <= i <= |chunks| && AccountOk(a) && sent == SentOf(a, chunks[..i])
      invariant Sending(f, files, a, chunks[..i], marks, book, spare)
    {
      var taken;
      taken, spare := WriteChunk(f, chunks, i, files, a, marks, book, spare);
      sent := sent + [chunks[i][..taken]];
      i := i + 1;
    }
  }

  lemma NothingSent(a: Account)
    requires AccountOk(a)
    ensures SentOf(a, []) == []
  {
  }

  /** `got` is what reads of `total` bytes in all have returned from the start of the file. */
  ghost predicate Got(f: OpenFile, bytes: seq<byte>, total: nat, got: seq<seq<byte>>)
    reads f, f.fs
  {
    && f.Reading() && f.IsOpened() && bytes == f.fs.Files()[f.name]
    && Flatten(got) == OpenFile.Portion(bytes, 0, total) && f.Position() == |Flatten(got)|
  }

  lemma PortionsAdd(bytes: seq<byte>, total: nat, n: nat)
    ensures
      var front := OpenFile.Portion(bytes, 0, total);
      front + OpenFile.Portion(bytes, |front|, n) == OpenFile.Portion(bytes, 0, total + n)
  {
  }

  /** Any sequence of `Read` calls on a fresh handle returns the file from the start, in order, without gaps. */
  method ReadChunks(f: OpenFile, sizes: seq<nat>) returns (got: seq<seq<byte>>)
    requires f.Reading() && f.IsOpened() && f.Position() == 0 && forall i :: 0 <= i < |sizes| ==> sizes[i] > 0
    modifies f
    ensures |got| == |sizes| && Got(f, f.fs.Files()[f.name], Sum(sizes), got)
  {
    hide FileOk, Backed, Decode, ClearCount;
    got := [];
    ghost var bytes := f.fs.Files()[f.name];
    for i := 0 to |sizes|
      invariant |got| == i && Got(f, bytes, Sum(sizes[..i]), got)
    {
      SumOneMore(sizes, i);
      PortionsAdd(bytes, Sum(sizes[..i]), sizes[i]);
      var into := f.Read(sizes[i], false);
      FlattenOneMore(got, into);
      got := got + [into];
    }
    assert sizes[..|sizes|] == sizes;
  }

  lemma LayOverNothing(data: seq<byte>)
    ensures Lay([], 0, data) == data
  {
  }

  /** What was written, in whatever chunks, is read back by a fresh handle, in whatever chunks. */
  method WriteThenRead(fs: FileSystem, name: string, chunks: seq<seq<byte>>, sizes: seq<nat>)
    returns (sent: seq<seq<byte>>, got: seq<seq<byte>>)
    requires fs.Valid() && name in fs.directory && name in fs.Files() && fs.Files()[name] == []
    requires Chunks(chunks) && forall i :: 0 <= i < |sizes| ==> sizes[i] > 0
    modifies fs`disk, fs`freeMapFile, fs`book
    ensures fs.Valid() && fs.Files() == old(fs.Files())[name := Flatten(sent)]
    ensures |sent| == |chunks| && Accepted(sent, chunks)
    ensures |got| == |sizes| && Flatten(got) == OpenFile.Portion(Flatten(sent), 0, Sum(sizes))
    ensures Sum(sizes) >= |Flatten(sent)| ==> Flatten(got) == Flatten(sent)
    ensures sent == chunks <==> old(ClearCount(fs.freeMapFile) >= Needed(0, |fs.Chain(name)|, |Flatten(chunks)|))
  {
    hide FileOk, Backed, Decode, ClearCount, Needed, Flatten, Accepted, HeaderOk, Lay, SentOf, BookedAll, MapGrows;
    ghost var spare;
    sent, spare := WriteFromStart(fs, name, chunks);
    LayOverNothing(Flatten(sent));
    got := ReadBack(fs, name, sizes);
  }

  /** The account of a new handle on file `name`. */
  ghost function FirstAccount(p: Snapshot, name: string): Account
    requires Sound(p) && name in FilesOf(p) && name in p.book.files
  {
    Account(0, |FilesOf(p)[name]|, |p.book.files[name]|, ClearCount(p.fs.marks))
  }

  /** Newly marked sectors that the file did not get: all that were used up, less its headers and data. */
  ghost predicate StraysLeft(a: Account, r: Account, marks: seq<bool>, marks': seq<bool>, book': Book, name: string) {
    && |marks| == |marks'|
    && |Strays(marks, marks', book', name)|
         == a.clear - r.clear - (r.parts - a.parts)
          - (DivRoundUp(r.length, SECTOR_SIZE) - DivRoundUp(a.length, SECTOR_SIZE))
  }

  /** A fresh handle, written from the start. */
  method WriteFromStart(fs: FileSystem, name: string, chunks: seq<seq<byte>>)
    returns (sent: seq<seq<byte>>, ghost spare: set<nat>)
    requires fs.Valid() && name in fs.directory && Chunks(chunks)
    modifies fs`disk, fs`freeMapFile, fs`book
    ensures fs.Valid() && name in old(fs.Files()) && name in fs.book.files && name in old(fs.book.files)
    ensures fs.Files() == Laid(old(fs.Files()), name, 0, Flatten(sent))
    ensures |sent| == |chunks| && Accepted(sent, chunks)
    ensures
      var a := FirstAccount(old(Snap(fs)), name);
      && AccountOk(a) && sent == SentOf(a, chunks)
      && (sent == chunks <==> a.clear >= Needed(a.length, a.parts, |Flatten(chunks)|))
      && ClearCount(fs.freeMapFile) == BookedAll(a, chunks).clear && |fs.Chain(name)| == BookedAll(a, chunks).parts
      && (sent == chunks ==> ClearCount(fs.freeMapFile) == a.clear - Needed(a.length, a.parts, |Flatten(chunks)|))
    ensures MapGrows(old(fs.freeMapFile), old(fs.book), fs.freeMapFile, fs.book, name, spare, {})
      && (sent == chunks ==> spare == {})
    ensures StraysLeft(FirstAccount(old(Snap(fs)), name), BookedAll(FirstAccount(old(Snap(fs)), name), chunks),
                       old(fs.freeMapFile), fs.freeMapFile, fs.book, name)
  {
    hide FileOk, Backed, Decode, ClearCount, Needed, Flatten, Accepted, HeaderOk, Lay, SentOf, BookedAll, MapGrows,
      AccountOk;
    var writer := new OpenFile(fs, fs.directory[name], name);
    OpenIsPart(writer, fs.Files());
    ghost var a, state, book := AccountOf(writer), fs.State(), fs.book;
    sent, spare := WriteChunks(writer, chunks);
    SentIsAccepted(a, chunks);
    SessionInFull(a, chunks);
    StraysOfWrite(state, book, fs.State(), fs.book, name, spare);
  }

  /** A fresh handle, read from the start. */
  method ReadBack(fs: FileSystem, name: string, sizes: seq<nat>) returns (got: seq<seq<byte>>)
    requires fs.Valid() && name in fs.directory && name in fs.Files() && forall i :: 0 <= i < |sizes| ==> sizes[i] > 0
    ensures |got| == |sizes| && Flatten(got) == OpenFile.Portion(fs.Files()[name], 0, Sum(sizes))
  {
    hide FileOk, Backed, Decode, ClearCount, Flatten, HeaderOk, Sum;
    var reader := new OpenFile(fs, fs.directory[name], name);
    got := ReadChunks(reader, sizes);
  }

  // ---------- runs of operations ----------

  datatype Operation =
    | Creating(name: string, room: bool)
    | Writing(name: string, chunks: seq<seq<byte>>)
    | Removing(name: string)

  /** What came of an operation: whether it succeeded, and what was accepted of each chunk. */
  datatype Outcome = Outcome(success: bool, sent: seq<seq<byte>>)

  predicate WellFormed(op: Operation) {
    op.Writing? ==> forall i :: 0 <= i < |op.chunks| ==> op.chunks[i] != []
  }

  /** The disk and map of a file system, and who owns what on it. */
  datatype Snapshot = Snapshot(fs: Fs, book: Book)

  ghost predicate Sound(p: Snapshot) {
    FsInv(p.fs, p.book)
  }

  ghost function FilesOf(p: Snapshot): Files
    requires Sound(p)
  {
    AllFiles(p.fs, p.book)
  }

  ghost function Snap(fs: FileSystem): Snapshot
    reads fs
  {
    Snapshot(fs.State(), fs.book)
  }

  /** The files after one operation with a given outcome. */
  ghost function After(files: Files, op: Operation, o: Outcome): Files {
    if !o.success then files
    else match op
      case Creating(name, _) => files[name := []]
      case Writing(name, _) => if name in files then Laid(files, name, 0, Flatten(o.sent)) else files
      case Removing(name) => files - {name}
  }

  /**
   The outcome that the state calls for: a creation succeeds exactly if the name is new, the
   directory has room and a sector is clear; removing and writing succeed exactly if the file
   exists; and a write is accepted in full if there are sectors enough for it.
   */
  ghost predicate Right(p: Snapshot, op: Operation, o: Outcome)
    requires Sound(p)
  {
    match op
    case Creating(name, room) => o.success <==> name !in FilesOf(p) && room && ClearCount(p.fs.marks) > 0
    case Removing(name) => o.success <==> name in FilesOf(p)
    case Writing(name, chunks) =>
      && (o.success <==> name in FilesOf(p))
      && (o.success ==>
           && |o.sent| == |chunks| && Accepted(o.sent, chunks) && name in p.book.files
           && var a := FirstAccount(p, name);
              && AccountOk(a) && o.sent == SentOf(a, chunks)
              && (o.sent == chunks <==> a.clear >= Needed(a.length, a.parts, |Flatten(chunks)|)))
  }

  /**
   After a write session: exactly the sectors that the account says are clear, and none but the
   file's own have been marked, unless space ran out.
   */
  ghost predicate WriteMarks(p: Snapshot, name: string, chunks: seq<seq<byte>>, sent: seq<seq<byte>>, q: Snapshot)
    requires Sound(p) && Sound(q)
  {
    && name in FilesOf(p) && name in p.book.files && name in q.book.files
    && var a := FirstAccount(p, name);
       && AccountOk(a) && ClearCount(q.fs.marks) == BookedAll(a, chunks).clear
       && |q.book.files[name]| == BookedAll(a, chunks).parts
       && (sent == chunks ==> ClearCount(q.fs.marks) == a.clear - Needed(a.length, a.parts, |Flatten(chunks)|))
       && StraysLeft(a, BookedAll(a, chunks), p.fs.marks, q.fs.marks, q.book, name)
       && exists spare ::
            MapGrows(p.fs.marks, p.book, q.fs.marks, q.book, name, spare, {}) && (sent == chunks ==> spare == {})
  }

  /**
   What becomes of the free map: one sector taken, those that a write uses, or exactly those of the file
   given back.
   */
  ghost predicate MapFollows(p: Snapshot, op: Operation, o: Outcome, q: Snapshot)
    requires Sound(p) && Sound(q)
  {
    if !o.success then q == p
    else match op
      case Creating(name, _) =>
        exists g :: 0 <= g < NUM_SECTORS && !p.fs.marks[g] && q.fs.marks == p.fs.marks[g := true]
      case Removing(name) =>
        forall s :: 0 <= s < NUM_SECTORS ==> q.fs.marks[s] == (p.fs.marks[s] && s !in SectorsOf(p.book, name))
      case Writing(name, chunks) => WriteMarks(p, name, chunks, o.sent, q)
  }

  /** One operation leads from `p` to `q`. */
  ghost predicate Leads(p: Snapshot, op: Operation, o: Outcome, q: Snapshot) {
    && Sound(p) && Sound(q) && Right(p, op, o)
    && FilesOf(q) == After(FilesOf(p), op, o) && MapFollows(p, op, o, q)
  }

  /** One operation: a creation, a session of writes through a new handle, or a removal. */
  method Step(fs: FileSystem, op: Operation) returns (o: Outcome)
    requires fs.Valid() && WellFormed(op)
    modifies fs
    ensures fs.Valid() && Leads(old(Snap(fs)), op, o, Snap(fs))
  {
    hide FileOk, Backed, Decode, ClearCount, Needed, Flatten;
    match op
    case Creating(name, room) =>
      var success := fs.Create(name, room);
      o := Outcome(success, []);
    case Removing(name) =>
      var success := fs.Remove(name);
      o := Outcome(success, []);
    case Writing(name, chunks) =>
      o := WriteSession(fs, name, chunks);
  }

  method WriteSession(fs: FileSystem, name: string, chunks: seq<seq<byte>>) returns (o: Outcome)
    requires fs.Valid() && Chunks(chunks)
    modifies fs
    ensures fs.Valid() && Leads(old(Snap(fs)), Operation.Writing(name, chunks), o, Snap(fs))
  {
    hide FileOk, Backed, Decode, ClearCount, Needed, Flatten, Accepted, HeaderOk, MapGrows, SentOf, BookedAll,
      AccountOk, Laid;
    o := Outcome(false, []);
    if name in fs.directory {
      var sent;
      ghost var spare;
      sent, spare := WriteFromStart(fs, name, chunks);
      o := Outcome(true, sent);
    }
  }

  /** No sector is used twice, as header or data, within a file or between files, and all are marked in the map. */
  ghost predicate Apart(p: Snapshot) {
    && Shape(p.fs)
    && (forall a, k, i :: IsSlot(p, a, k, i) ==>
      SlotSector(p, a, k, i) < NUM_SECTORS && p.fs.marks[SlotSector(p, a, k, i)])
    && (forall a, k, i, b, m, j :: IsSlot(p, a, k, i) && IsSlot(p, b, m, j) && (a, k, i) != (b, m, j) ==>
          SlotSector(p, a, k, i) != SlotSector(p, b, m, j))
  }

  /** Slot `i` of header `k` of a file: the header itself for 0, then its data sectors. */
  ghost predicate IsSlot(p: Snapshot, name: string, k: nat, i: nat) {
    && Shape(p.fs) && name in p.book.files && k < |p.book.files[name]| && p.book.files[name][k] < NUM_SECTORS
    && Raw(p.fs.disk, p.book.files[name][k]).numSectors <= NUM_DIRECT
    && i < |Extent(p.fs.disk, p.book.files[name][k])|
  }

  ghost function SlotSector(p: Snapshot, name: string, k: nat, i: nat): nat
    requires IsSlot(p, name, k, i)
  {
    Extent(p.fs.disk, p.book.files[name][k])[i]
  }

  lemma SoundIsApart(p: Snapshot)
    requires Sound(p)
    ensures Apart(p)
  {
    forall a, k, i | IsSlot(p, a, k, i)
      ensures SlotSector(p, a, k, i) < NUM_SECTORS && p.fs.marks[SlotSector(p, a, k, i)]
    {
      OwnerInExtent(p.fs, p.book, a, k, i);
    }
    forall a, k, i, b, m, j | IsSlot(p, a, k, i) && IsSlot(p, b, m, j) && (a, k, i) != (b, m, j)
      ensures SlotSector(p, a, k, i) != SlotSector(p, b, m, j)
    {
      SectorsAreDisjoint(p.fs, p.book, a, k, b, m, i, j);
    }
  }

  /** Each state of a run leads to the next by one operation. */
  ghost predicate Traced(trace: seq<Snapshot>, ops: seq<Operation>, outcomes: seq<Outcome>) {
    && |trace| == |ops| + 1 && |outcomes| == |ops|
    && forall i :: 0 <= i < |ops| ==> Leads(trace[i], ops[i], outcomes[i], trace[i + 1])
  }

  lemma TracedOneMore(trace: seq<Snapshot>, ops: seq<Operation>, outcomes: seq<Outcome>, op: Operation, o: Outcome,
                      q: Snapshot)
    requires Traced(trace, ops, outcomes) && Leads(trace[|ops|], op, o, q)
    ensures Traced(trace + [q], ops + [op], outcomes + [o])
  {
    hide Leads;
    var trace', ops', outcomes' := trace + [q], ops + [op], outcomes + [o];
    forall i | 0 <= i < |ops'|
      ensures Leads(trace'[i], ops'[i], outcomes'[i], trace'[i + 1])
    {
      assert i < |ops| ==> Leads(trace[i], ops[i], outcomes[i], trace[i + 1]);
    }
  }

  /**
   Any run of operations, short of space or not: each has the outcome that the state before it
   calls for and the effect that goes with it, and at the end no sector is used twice and all
   used ones are marked.
   */
  method Run(fs: FileSystem, ops: seq<Operation>) returns (outcomes: seq<Outcome>, ghost trace: seq<Snapshot>)
    requires fs.Valid() && forall i :: 0 <= i < |ops| ==> WellFormed(ops[i])
    modifies fs
    ensures fs.Valid() && Apart(Snap(fs))
    ensures Traced(trace, ops, outcomes) && trace[0] == old(Snap(fs)) && trace[|ops|] == Snap(fs)
  {
    hide Leads, FsInv, Listed;
    outcomes, trace := [], [Snap(fs)];
    for i := 0 to |ops|
      invariant fs.Valid() && Traced(trace, ops[..i], outcomes)
      invariant trace[0] == old(Snap(fs)) && trace[i] == Snap(fs)
    {
      var o := Step(fs, ops[i]);
      TracedOneMore(trace, ops[..i], outcomes, ops[i], o, Snap(fs));
      assert ops[..i + 1] == ops[..i] + [ops[i]];
      outcomes, trace := outcomes + [o], trace + [Snap(fs)];
    }
    assert ops[..|ops|] == ops;
    SoundIsApart(Snap(fs));
  }
}
