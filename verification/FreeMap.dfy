/** Counting marked sectors: how many a file has, how many are newly marked, and how many of those are nobody's. */
module FreeMaps {
  import opened Numbers
  import opened Bitmaps
  import opened FileLayout
  import opened FileOwnership

  /** The sectors marked in `m'` and not in `m`. */
  function NewMarks(m: seq<bool>, m': seq<bool>): (r: set<nat>)
    requires |m| == |m'|
    ensures forall s :: s in r <==> 0 <= s < |m| && m'[s] && !m[s]
  {
    set s: nat | 0 <= s < |m| && m'[s] && !m[s]
  }

  lemma {:induction false} NewMarksCount(m: seq<bool>, m': seq<bool>)
    requires |m| == |m'| && forall s :: 0 <= s < |m| && m[s] ==> m'[s]
    ensures |NewMarks(m, m')| == ClearCount(m) - ClearCount(m')
  {
    if m == [] {
      assert NewMarks(m, m') == {};
    } else {
      var n := |m| - 1;
      NewMarksCount(m[..n], m'[..n]);
      LastMark(m, m', n);
    }
  }

  lemma LastMark(m: seq<bool>, m': seq<bool>, n: nat)
    requires |m| == |m'| == n + 1
    ensures |NewMarks(m, m')| == |NewMarks(m[..n], m'[..n])| + if m'[n] && !m[n] then 1 else 0
  {
    hide ClearCount;
    var rest := NewMarks(m[..n], m'[..n]);
    assert NewMarks(m, m') == if m'[n] && !m[n] then rest + {n} else rest;
  }

  function Elements(s: seq<nat>): set<nat> {
    set x | x in s
  }

  lemma {:induction false} CountDistinct(s: seq<nat>)
    requires Distinct(s)
    ensures |Elements(s)| == |s|
  {
    if s != [] {
      var n := |s| - 1;
      CountDistinct(s[..n]);
      assert s == s[..n] + [s[n]];
      assert Elements(s) == Elements(s[..n]) + {s[n]};
    }
  }

  /** The sectors of header `k` of a file: itself and its data. */
  ghost function PartSectors(book: Book, name: string, k: nat): set<nat> {
    set s | s in SectorsOf(book, name) && PartOf(book.owner[s]) == k
  }

  ghost function PartsBelow(book: Book, name: string, k: nat): set<nat> {
    set s | s in SectorsOf(book, name) && PartOf(book.owner[s]) < k
  }

  ghost function PartOf(o: Owner): nat {
    if o.System? then 0 else o.k
  }

  lemma PartIsExtent(fs: Fs, book: Book, name: string, k: nat)
    requires FsInv(fs, book) && name in book.files && k < |book.files[name]|
    ensures book.files[name][k] < NUM_SECTORS && HeaderOk(Raw(fs.disk, book.files[name][k]))
    ensures |PartSectors(book, name, k)| == 1 + Raw(fs.disk, book.files[name][k]).numSectors
  {
    OwnersOf(fs, book, name, k);
    var h := book.files[name][k];
    var e := Extent(fs.disk, h);
    forall i | 0 <= i < |e|
      ensures e[i] in PartSectors(book, name, k)
    {
      OwnerInExtent(fs, book, name, k, i);
    }
    forall i, j | 0 <= i < j < |e|
      ensures e[i] != e[j]
    {
      OwnerInExtent(fs, book, name, k, i);
      OwnerInExtent(fs, book, name, k, j);
    }
    forall s | s in PartSectors(book, name, k)
      ensures s in e
    {
      assert Backed(fs.disk, book, s);
      match book.owner[s]
      case HeaderOf(_, _) => assert e[0] == s;
      case DataOf(_, _, j) => assert e[j + 1] == s;
    }
    assert PartSectors(book, name, k) == Elements(e);
    CountDistinct(e);
  }

  lemma FullPart(fs: Fs, book: Book, name: string, k: nat)
    requires FsInv(fs, book) && name in book.files && k + 1 < |book.files[name]|
    ensures book.files[name][k] < NUM_SECTORS && Raw(fs.disk, book.files[name][k]).numSectors == NUM_DIRECT
  {
    OwnersOf(fs, book, name, k);
  }

  lemma OnePartMore(book: Book, name: string, k: nat)
    ensures |PartsBelow(book, name, k + 1)| == |PartsBelow(book, name, k)| + |PartSectors(book, name, k)|
  {
    hide SectorsOf;
    var below, part := PartsBelow(book, name, k), PartSectors(book, name, k);
    assert PartsBelow(book, name, k + 1) == below + part && below !! part;
  }

  lemma {:induction false} CountParts(fs: Fs, book: Book, name: string, k: nat)
    requires FsInv(fs, book) && name in book.files && k < |book.files[name]|
    ensures |PartsBelow(book, name, k)| == k * (NUM_DIRECT + 1)
    decreases k
  {
    if k == 0 {
      assert PartsBelow(book, name, 0) == {};
    } else {
      hide FsInv, PartsBelow, PartSectors;
      CountParts(fs, book, name, k - 1);
      PartIsExtent(fs, book, name, k - 1);
      FullPart(fs, book, name, k - 1);
      OnePartMore(book, name, k - 1);
    }
  }

  lemma SectorsOfLength(fs: Fs, book: Book, name: string)
    requires FsInv(fs, book) && name in book.files && book.files[name] != []
    ensures
      var k := |book.files[name]| - 1;
      && book.files[name][k] < NUM_SECTORS
      && DivRoundUp(|FileBytes(fs, book, name)|, SECTOR_SIZE)
           == k * NUM_DIRECT + Raw(fs.disk, book.files[name][k]).numSectors
  {
    hide Backed, Decode;
    assert FileOk(fs.disk, book, name);
    OwnersOf(fs, book, name, |book.files[name]| - 1);
  }

  lemma AllPartsBelow(fs: Fs, book: Book, name: string)
    requires FsInv(fs, book) && name in book.files
    ensures SectorsOf(book, name) == PartsBelow(book, name, |book.files[name]|)
  {
    hide FileOk, Decode;
    forall s | s in SectorsOf(book, name)
      ensures PartOf(book.owner[s]) < |book.files[name]|
    {
      assert Backed(fs.disk, book, s);
    }
  }

  /** A file has a sector for each header and one for each begun stretch of SECTOR_SIZE bytes. */
  lemma SectorsCount(fs: Fs, book: Book, name: string)
    requires FsInv(fs, book) && name in book.files && book.files[name] != []
    ensures |SectorsOf(book, name)| == |book.files[name]| + DivRoundUp(|FileBytes(fs, book, name)|, SECTOR_SIZE)
  {
    hide FsInv, PartsBelow, PartSectors, SectorsOf, FileBytes, DivRoundUp;
    var k := |book.files[name]| - 1;
    CountParts(fs, book, name, k);
    PartIsExtent(fs, book, name, k);
    OnePartMore(book, name, k);
    AllPartsBelow(fs, book, name);
    SectorsOfLength(fs, book, name);
  }

  /** Newly marked sectors that are not the file's. */
  ghost function Strays(m: seq<bool>, m': seq<bool>, book': Book, name: string): (r: set<nat>)
    requires |m| == |m'|
    ensures forall s :: s in r <==> 0 <= s < |m| && m'[s] && !m[s] && s !in SectorsOf(book', name)
  {
    NewMarks(m, m') - SectorsOf(book', name)
  }

  /** Of the newly marked sectors the file has got as many as it has grown by; the others are strays. */
  lemma CountStrays(fs: Fs, book: Book, fs': Fs, book': Book, name: string)
    requires FsInv(fs, book) && FsInv(fs', book') && SectorsOf(book, name) <= SectorsOf(book', name)
    requires forall s :: 0 <= s < NUM_SECTORS && fs.marks[s] ==> fs'.marks[s]
    requires forall s :: s in SectorsOf(book', name) && s !in SectorsOf(book, name) ==> s < NUM_SECTORS && !fs.marks[s]
    ensures |Strays(fs.marks, fs'.marks, book', name)|
         == ClearCount(fs.marks) - ClearCount(fs'.marks) - (|SectorsOf(book', name)| - |SectorsOf(book, name)|)
  {
    NewMarksCount(fs.marks, fs'.marks);
    var fresh', gained := NewMarks(fs.marks, fs'.marks), SectorsOf(book', name) - SectorsOf(book, name);
    forall s | s in gained
      ensures s in fresh'
    {
      assert s in book'.owner;
    }
    forall s | s in SectorsOf(book, name)
      ensures s !in fresh'
    {
      assert s in book.owner;
    }
    assert Strays(fs.marks, fs'.marks, book', name) == fresh' - gained;
    assert SectorsOf(book', name) == gained + SectorsOf(book, name);
    assert |gained + SectorsOf(book, name)| == |gained| + |SectorsOf(book, name)|;
  }
}
