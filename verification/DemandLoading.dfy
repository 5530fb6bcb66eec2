/**
 Two ways to load a program: all of it when the address space is built, or page
 by page when pages are touched.  They agree byte for byte.
 */
module DemandLoading {
  import opened Options
  import opened Numbers
  import opened FlatMemory
  import opened Vm

  /** The byte the program header puts at virtual address `a`; data is copied over code. */
  function ImageByte(exe: Executable, a: int): byte {
    if exe.dataAddr <= a < exe.dataAddr + |exe.data| then exe.data[a - exe.dataAddr]
    else if exe.codeAddr <= a < exe.codeAddr + |exe.code| then exe.code[a - exe.codeAddr]
    else 0
  }

  function ImagePage(exe: Executable, v: nat): (page: seq<byte>)
    ensures |page| == PAGE_SIZE
  {
    seq<byte>(PAGE_SIZE, o requires 0 <= o < PAGE_SIZE => ImageByte(exe, v * PAGE_SIZE + o))
  }

  /** Both segments lie inside the address space. */
  predicate SegmentsFit(exe: Executable, numPages: nat) {
    && exe.codeAddr + |exe.code| <= numPages * PAGE_SIZE
    && exe.dataAddr + |exe.data| <= numPages * PAGE_SIZE
  }

  // ---------- eager loading ----------

  /** Where virtual address `a` is in physical memory. */
  function Phys(frames: seq<nat>, a: int): int
    requires 0 <= a < |frames| * PAGE_SIZE
  {
    frames[a / PAGE_SIZE] * PAGE_SIZE + a % PAGE_SIZE
  }

  ghost predicate FramesOk(frames: seq<nat>, memorySize: nat) {
    && (forall v :: 0 <= v < |frames| ==> (frames[v] + 1) * PAGE_SIZE <= memorySize)
    && Distinct(frames)
  }

  lemma PhysInjective(frames: seq<nat>, memorySize: nat, a: int, b: int)
    requires FramesOk(frames, memorySize) && 0 <= a < |frames| * PAGE_SIZE && 0 <= b < |frames| * PAGE_SIZE && a != b
    ensures Phys(frames, a) != Phys(frames, b) && 0 <= Phys(frames, a) < memorySize
  {
  }

  /** Copies a segment one byte at a time, translating each address. */
  method CopySegment(mainMemory: array<byte>, frames: seq<nat>, segment: seq<byte>, virtualAddr: nat)
    requires FramesOk(frames, mainMemory.Length) && virtualAddr + |segment| <= |frames| * PAGE_SIZE
    modifies mainMemory
    ensures forall a :: 0 <= a < |frames| * PAGE_SIZE ==> 0 <= Phys(frames, a) < mainMemory.Length
    ensures forall a :: 0 <= a < |frames| * PAGE_SIZE ==>
      mainMemory[Phys(frames, a)]
        == if virtualAddr <= a < virtualAddr + |segment| then segment[a - virtualAddr]
           else old(mainMemory[Phys(frames, a)])
  {
    for i := 0 to |segment|
      invariant forall a :: 0 <= a < |frames| * PAGE_SIZE ==> 0 <= Phys(frames, a) < mainMemory.Length
      invariant forall a :: 0 <= a < |frames| * PAGE_SIZE ==>
        mainMemory[Phys(frames, a)]
          == if virtualAddr <= a < virtualAddr + i then segment[a - virtualAddr]
             else old(mainMemory[Phys(frames, a)])
    {
      var frame := frames[(virtualAddr + i) / PAGE_SIZE];
      var offset := (virtualAddr + i) % PAGE_SIZE;
      mainMemory[frame * PAGE_SIZE + offset] := segment[i];
      forall a | 0 <= a < |frames| * PAGE_SIZE && a != virtualAddr + i
        ensures Phys(frames, a) != Phys(frames, virtualAddr + i)
      {
        PhysInjective(frames, mainMemory.Length, a, virtualAddr + i);
      }
    }
  }

  /** The eager path of the `AddressSpace` constructor: clear every page, copy the code, copy the data. */
  method EagerLoad(mainMemory: array<byte>, frames: seq<nat>, exe: Executable)
    requires FramesOk(frames, mainMemory.Length) && SegmentsFit(exe, |frames|)
    modifies mainMemory
    ensures forall v :: 0 <= v < |frames| ==>
      mainMemory[frames[v] * PAGE_SIZE..(frames[v] + 1) * PAGE_SIZE] == ImagePage(exe, v)
    ensures forall a :: 0 <= a < |frames| * PAGE_SIZE ==>
      && 0 <= Phys(frames, a) < mainMemory.Length
      && mainMemory[Phys(frames, a)]
           == if exe.dataAddr <= a < exe.dataAddr + |exe.data| then exe.data[a - exe.dataAddr]
              else if exe.codeAddr <= a < exe.codeAddr + |exe.code| then exe.code[a - exe.codeAddr]
              else 0
  {
    for i := 0 to |frames|
      invariant forall a :: 0 <= a < |frames| * PAGE_SIZE ==> 0 <= Phys(frames, a) < mainMemory.Length
      invariant forall a :: 0 <= a < i * PAGE_SIZE ==> mainMemory[Phys(frames, a)] == 0
    {
      forall o | 0 <= o < PAGE_SIZE {
        mainMemory[frames[i] * PAGE_SIZE + o] := 0;
      }
    }
    CopySegment(mainMemory, frames, exe.code, exe.codeAddr);
    CopySegment(mainMemory, frames, exe.data, exe.dataAddr);
    forall v | 0 <= v < |frames|
      ensures mainMemory[frames[v] * PAGE_SIZE..(frames[v] + 1) * PAGE_SIZE] == ImagePage(exe, v)
    {
      var page := mainMemory[frames[v] * PAGE_SIZE..(frames[v] + 1) * PAGE_SIZE];
      forall o | 0 <= o < PAGE_SIZE
        ensures page[o] == ImagePage(exe, v)[o]
      {
        assert page[o] == mainMemory[Phys(frames, v * PAGE_SIZE + o)];
      }
    }
  }

  // ---------- they agree ----------

  lemma DemandByte(exe: Executable, v: nat, o: nat)
    requires LayoutOk(exe) && o < PAGE_SIZE && (exe.code == [] || exe.codeAddr == 0)
    ensures DemandPage(exe, v)[o] == ImageByte(exe, v * PAGE_SIZE + o)
  {
    var code := CodePart(exe, v);
    var data := DataPart(exe, v, |code|);
    var page := DemandPage(exe, v);
    if o < |code| {
      assert page[o] == code[o];
    } else if o < |code| + |data| {
      assert page[o] == data[o - |code|];
    } else {
      assert page[o] == 0;
    }
  }

  /** With code at 0 and data right behind it, every page agrees. */
  lemma SamePage(exe: Executable, v: nat)
    requires LayoutOk(exe) && (exe.code == [] || exe.codeAddr == 0)
    ensures DemandPage(exe, v) == ImagePage(exe, v)
  {
    forall o | 0 <= o < PAGE_SIZE
      ensures DemandPage(exe, v)[o] == ImagePage(exe, v)[o]
    {
      DemandByte(exe, v, o);
    }
  }

  // ---------- and exactly when ----------

  /** `LoadPage` for any header at all; None where reading the data block fails its assertions. */
  function TryDemandPage(exe: Executable, v: nat): (page: Option<seq<byte>>)
    ensures LayoutOk(exe) ==> page == Some(DemandPage(exe, v))
  {
    var start, code := v * PAGE_SIZE, CodePart(exe, v);
    if exe.data != [] && start + |code| < exe.dataAddr + |exe.data| && |code| < PAGE_SIZE then
      var offset := if |code| > 0 then 0 else start - |exe.code|;
      if offset >= |exe.data| then None
      else
        var data := exe.data[offset..offset + Min(|exe.data| - offset, PAGE_SIZE - |code|)];
        Some(code + data + Zeros(PAGE_SIZE - |code| - |data|))
    else Some(code + [] + Zeros(PAGE_SIZE - |code| - 0))
  }

  /** Demand loading never fails and builds the eager image. */
  ghost predicate Agrees(exe: Executable) {
    forall v :: 0 <= v < PagesOf(exe) ==> TryDemandPage(exe, v) == Some(ImagePage(exe, v))
  }

  /** A header: where the segments go and how long they are. */
  datatype Header = Header(codeAddr: nat, codeSize: nat, dataAddr: nat, dataSize: nat, uninitSize: nat)

  predicate HasHeader(exe: Executable, h: Header) {
    && exe.codeAddr == h.codeAddr && |exe.code| == h.codeSize
    && exe.dataAddr == h.dataAddr && |exe.data| == h.dataSize && exe.uninitSize == h.uninitSize
  }

  /** A program with header `h`, code all ones and data all twos. */
  function Sample(h: Header): (exe: Executable)
    ensures HasHeader(exe, h)
  {
    Executable(seq<byte>(h.codeSize, _ => 1), h.codeAddr, seq<byte>(h.dataSize, _ => 2), h.dataAddr, h.uninitSize)
  }

  lemma SampleDisagrees(h: Header)
    requires (h.codeSize > 0 && h.codeAddr != 0) || (h.dataSize > 0 && h.dataAddr != h.codeSize)
    ensures !Agrees(Sample(h))
  {
    var exe := Sample(h);
    var a := if h.codeSize > 0 && h.codeAddr != 0 then 0 else Min(h.codeSize, h.dataAddr);
    var v, o := a / PAGE_SIZE, a % PAGE_SIZE;
    assert v < PagesOf(exe);
    assert ImagePage(exe, v)[o] == ImageByte(exe, v * PAGE_SIZE + o);
    var code := CodePart(exe, v);
    var page := TryDemandPage(exe, v);
    if page.Some? {
      if a < h.codeSize {
        assert page.value[o] == code[o] == 1;
        assert ImageByte(exe, a) != 1;
      } else {
        assert |code| == o;
        assert page.value[o] == exe.data[0] == 2;
        assert ImageByte(exe, a) == 0;
      }
      assert page.value != ImagePage(exe, v);
    }
  }

  /**
   Whatever the segments contain, the pages loaded on demand are the pages loaded
   eagerly: true of a header exactly when its code, if any, starts at 0 and its
   initialised data, if any, starts where the code ends.
   */
  lemma DemandAgreesWithEager(h: Header)
    ensures (forall exe :: HasHeader(exe, h) ==> Agrees(exe))
       <==> (h.codeSize == 0 || h.codeAddr == 0) && (h.dataSize == 0 || h.dataAddr == h.codeSize)
  {
    if (h.codeSize == 0 || h.codeAddr == 0) && (h.dataSize == 0 || h.dataAddr == h.codeSize) {
      forall exe | HasHeader(exe, h)
        ensures Agrees(exe)
      {
        forall v | 0 <= v < PagesOf(exe)
          ensures TryDemandPage(exe, v) == Some(ImagePage(exe, v))
        {
          SamePage(exe, v);
        }
      }
    } else {
      SampleDisagrees(h);
      assert HasHeader(Sample(h), h);
    }
  }
}
