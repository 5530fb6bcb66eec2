/**
 The state of the demand-paged memory and the steps that the kernel and the MMU
 take on it, as functions from state to state.  Address spaces are numbered;
 `cur` is the one that is running and owns whatever the TLB holds.
 */
module Vm {
  import opened Numbers
  import opened FlatMemory

  const NUM_PHYS_PAGES := 64
  const MEMORY_SIZE := NUM_PHYS_PAGES * PAGE_SIZE
  const TLB_SIZE := 32

  datatype Entry = Entry(virtualPage: nat, physicalPage: nat, valid: bool,
                         readOnly: bool, use: bool, dirty: bool)

  /** The loadable segments of a program file and where its header places them. */
  datatype Executable = Executable(code: seq<byte>, codeAddr: nat, data: seq<byte>, dataAddr: nat, uninitSize: nat)

  /** An address space: its page table, which pages are in swap, its swap file, its program. */
  datatype Space = Space(pageTable: seq<Entry>, swapMap: seq<bool>, swap: seq<byte>, exe: Executable)

  datatype State = State(
    spaces: seq<Space>, cur: nat,
    tlb: seq<Entry>, memory: seq<byte>,
    used: seq<bool>, owner: seq<nat>, vpns: seq<nat>,
    hand: nat, slot: nat)

  /** Initialised data directly after the code, which is all `LoadPage` can load. */
  predicate LayoutOk(exe: Executable) {
    exe.data == [] || exe.dataAddr == |exe.code|
  }

  predicate SpaceShape(space: Space) {
    |space.swapMap| == |space.pageTable| && LayoutOk(space.exe)
  }

  /** Table sizes only; nothing about contents. */
  predicate Shape(s: State) {
    && s.cur < |s.spaces|
    && |s.tlb| == TLB_SIZE
    && |s.memory| == MEMORY_SIZE
    && |s.used| == |s.owner| == |s.vpns| == NUM_PHYS_PAGES
    && s.hand < NUM_PHYS_PAGES
    && s.slot < TLB_SIZE
    && forall i :: 0 <= i < |s.spaces| ==> SpaceShape(s.spaces[i])
  }

  function Zeros(n: nat): (z: seq<byte>)
    ensures |z| == n
  {
    seq(n, _ => 0)
  }

  // ---------- frames ----------

  function Frame(memory: seq<byte>, f: nat): (page: seq<byte>)
    requires |memory| == MEMORY_SIZE && f < NUM_PHYS_PAGES
    ensures |page| == PAGE_SIZE
  {
    memory[f * PAGE_SIZE..(f + 1) * PAGE_SIZE]
  }

  function PutFrame(memory: seq<byte>, f: nat, page: seq<byte>): (m: seq<byte>)
    requires |memory| == MEMORY_SIZE && f < NUM_PHYS_PAGES && |page| == PAGE_SIZE
    ensures |m| == MEMORY_SIZE
  {
    Splice(memory, f * PAGE_SIZE, page)
  }

  lemma FrameOfPut(memory: seq<byte>, f: nat, page: seq<byte>, g: nat)
    requires |memory| == MEMORY_SIZE && f < NUM_PHYS_PAGES && g < NUM_PHYS_PAGES && |page| == PAGE_SIZE
    ensures Frame(PutFrame(memory, f, page), g) == if g == f then page else Frame(memory, g)
  {
    if g != f {
      var m := PutFrame(memory, f, page);
      assert Frame(m, g) == Frame(memory, g);
    }
  }

  lemma FrameOfSplice(memory: seq<byte>, f: nat, o: nat, data: seq<byte>, g: nat)
    requires |memory| == MEMORY_SIZE && f < NUM_PHYS_PAGES && g < NUM_PHYS_PAGES && o + |data| <= PAGE_SIZE
    ensures f * PAGE_SIZE + o + |data| <= MEMORY_SIZE
    ensures Frame(Splice(memory, f * PAGE_SIZE + o, data), g)
         == if g == f then Splice(Frame(memory, f), o, data) else Frame(memory, g)
  {
    var m := Splice(memory, f * PAGE_SIZE + o, data);
    if g == f {
      assert Frame(m, g) == Splice(Frame(memory, f), o, data);
    } else {
      assert Frame(m, g) == Frame(memory, g);
    }
  }

  // ---------- the swap file, a host file ----------

  /** Host semantics: seeking past the end leaves a hole of zeros. */
  function FileWriteAt(file: seq<byte>, position: nat, data: seq<byte>): (file': seq<byte>)
    ensures |file'| >= position + |data|
    ensures |file'| >= |file|
    ensures file'[position..position + |data|] == data
    ensures forall k {:trigger file'[k]} :: 0 <= k < |file| && !(position <= k < position + |data|) ==>
      file'[k] == file[k]
  {
    var padded := if |file| < position + |data| then file + Zeros(position + |data| - |file|) else file;
    Splice(padded, position, data)
  }

  /** Host semantics: a read past the end is short. */
  function FileReadAt(file: seq<byte>, position: nat, n: nat): seq<byte> {
    file[Min(position, |file|)..Min(position + n, |file|)]
  }

  lemma ReadBack(file: seq<byte>, position: nat, data: seq<byte>)
    ensures FileReadAt(FileWriteAt(file, position, data), position, |data|) == data
  {
  }

  lemma ReadElsewhere(file: seq<byte>, position: nat, data: seq<byte>, p: nat, n: nat)
    requires p + n <= |file|
    requires p + n <= position || position + |data| <= p
    ensures FileReadAt(FileWriteAt(file, position, data), p, n) == FileReadAt(file, p, n)
  {
    var file' := FileWriteAt(file, position, data);
    assert file'[p..p + n] == file[p..p + n];
  }

  // ---------- the program image ----------

  /** How much of page `vpn` is code, by the test of `LoadPage`. */
  function CodePart(exe: Executable, vpn: nat): (code: seq<byte>)
    ensures |code| <= PAGE_SIZE
  {
    var start := vpn * PAGE_SIZE;
    if start < |exe.code| then exe.code[start..start + Min(|exe.code| - start, PAGE_SIZE)] else []
  }

  /** The initialised data that follows `nCode` bytes of code in page `vpn`, by the test of `LoadPage`. */
  function DataPart(exe: Executable, vpn: nat, nCode: nat): (data: seq<byte>)
    requires LayoutOk(exe) && nCode == |CodePart(exe, vpn)|
    ensures nCode + |data| <= PAGE_SIZE
  {
    var start := vpn * PAGE_SIZE;
    if exe.data != [] && start + nCode < exe.dataAddr + |exe.data| && nCode < PAGE_SIZE then
      var offset := if nCode > 0 then 0 else start - |exe.code|;
      exe.data[offset..offset + Min(|exe.data| - offset, PAGE_SIZE - nCode)]
    else []
  }

  /** The page `LoadPage` builds in a zeroed frame when the page is not in swap. */
  function DemandPage(exe: Executable, vpn: nat): (page: seq<byte>)
    requires LayoutOk(exe)
    ensures |page| == PAGE_SIZE
  {
    var code := CodePart(exe, vpn);
    var data := DataPart(exe, vpn, |code|);
    code + data + Zeros(PAGE_SIZE - |code| - |data|)
  }

  /** Where page `v` lives when it is in no frame. */
  function Backing(space: Space, v: nat): (page: seq<byte>)
    requires SpaceShape(space) && v < |space.pageTable|
    ensures |page| == PAGE_SIZE
  {
    if space.swapMap[v] then
      var r := FileReadAt(space.swap, v * PAGE_SIZE, PAGE_SIZE);
      r + Zeros(PAGE_SIZE - |r|)
    else DemandPage(space.exe, v)
  }

  const USER_STACK_SIZE := 2048

  /** Pages for the segments and the stack. */
  function PagesOf(exe: Executable): (n: nat)
    ensures (n - 1) * PAGE_SIZE < |exe.code| + |exe.data| + exe.uninitSize + USER_STACK_SIZE <= n * PAGE_SIZE
  {
    var size := |exe.code| + |exe.data| + exe.uninitSize + USER_STACK_SIZE;
    size / PAGE_SIZE + (if size % PAGE_SIZE > 0 then 1 else 0)
  }

  const UNMAPPED := 0xFFFF_FFFF

  /** A new address space: nothing loaded, nothing in swap. */
  function NewSpace(exe: Executable): Space {
    Space(seq(PagesOf(exe), v requires 0 <= v < PagesOf(exe) => Entry(v, UNMAPPED, false, false, false, false)),
          seq(PagesOf(exe), _ => false), [], exe)
  }

  // ---------- the flat memory that the whole machinery stands for ----------

  function PageOf(s: State, i: nat, v: nat): (page: seq<byte>)
    requires Shape(s) && i < |s.spaces| && v < |s.spaces[i].pageTable|
    ensures |page| == PAGE_SIZE
  {
    var e := s.spaces[i].pageTable[v];
    if e.valid && e.physicalPage < NUM_PHYS_PAGES then Frame(s.memory, e.physicalPage)
    else Backing(s.spaces[i], v)
  }

  function NumPages(s: State, i: nat): nat
    requires i < |s.spaces|
  {
    |s.spaces[i].pageTable|
  }

  function View(s: State, i: nat): (m: seq<byte>)
    requires Shape(s) && i < |s.spaces|
    ensures |m| == NumPages(s, i) * PAGE_SIZE
  {
    seq(NumPages(s, i) * PAGE_SIZE,
        a requires 0 <= a < NumPages(s, i) * PAGE_SIZE =>
          PageOf(s, i, a / PAGE_SIZE)[a % PAGE_SIZE])
  }

  // ---------- TLB lookup ----------

  predicate Maps(e: Entry, vpn: nat) {
    e.valid && e.virtualPage == vpn
  }

  predicate MapsOnto(e: Entry, frame: nat) {
    e.valid && e.physicalPage == frame
  }

  /** The first of the last `n` slots that maps `vpn`, or the length. */
  function Scan(tlb: seq<Entry>, vpn: nat, n: nat): (k: nat)
    requires n <= |tlb|
    ensures |tlb| - n <= k <= |tlb|
    ensures k < |tlb| ==> Maps(tlb[k], vpn)
    ensures forall m :: |tlb| - n <= m < k ==> !Maps(tlb[m], vpn)
    decreases n
  {
    if n == 0 || Maps(tlb[|tlb| - n], vpn) then |tlb| - n else Scan(tlb, vpn, n - 1)
  }

  /** The first slot that maps `vpn`, or the length. */
  function TlbFind(tlb: seq<Entry>, vpn: nat): (k: nat)
    ensures k <= |tlb|
    ensures k < |tlb| ==> Maps(tlb[k], vpn)
    ensures forall m :: 0 <= m < k ==> !Maps(tlb[m], vpn)
  {
    Scan(tlb, vpn, |tlb|)
  }

  /** The first of the last `n` slots that maps onto `frame`, or the length. */
  function ScanFrames(tlb: seq<Entry>, frame: nat, n: nat): (k: nat)
    requires n <= |tlb|
    ensures |tlb| - n <= k <= |tlb|
    ensures k < |tlb| ==> MapsOnto(tlb[k], frame)
    ensures forall m :: |tlb| - n <= m < k ==> !MapsOnto(tlb[m], frame)
    decreases n
  {
    if n == 0 || MapsOnto(tlb[|tlb| - n], frame) then |tlb| - n else ScanFrames(tlb, frame, n - 1)
  }

  /** The first slot that maps onto `frame`, or the length. */
  function TlbFindFrame(tlb: seq<Entry>, frame: nat): (k: nat)
    ensures k <= |tlb|
    ensures k < |tlb| ==> MapsOnto(tlb[k], frame)
    ensures forall m :: 0 <= m < k ==> !MapsOnto(tlb[m], frame)
  {
    ScanFrames(tlb, frame, |tlb|)
  }

  // ---------- steps ----------

  function SetPte(s: State, v: nat, e: Entry): State
    requires s.cur < |s.spaces| && v < |s.spaces[s.cur].pageTable|
  {
    s.(spaces := s.spaces[s.cur := s.spaces[s.cur].(pageTable := s.spaces[s.cur].pageTable[v := e])])
  }

  /** `Translate`: a hit in slot `j` sets its use bit and, for a write, its dirty bit. */
  function Touch(s: State, j: nat, writing: bool): State
    requires j < |s.tlb|
  {
    s.(tlb := s.tlb[j := s.tlb[j].(use := true, dirty := s.tlb[j].dirty || writing)])
  }

  /** A successful write of `data` at offset `o` of the page that slot `j` maps. */
  function WriteThrough(s: State, j: nat, o: nat, data: seq<byte>): State
    requires Shape(s) && j < TLB_SIZE && s.tlb[j].physicalPage < NUM_PHYS_PAGES && o + |data| <= PAGE_SIZE
  {
    Touch(s, j, true).(memory := Splice(s.memory, s.tlb[j].physicalPage * PAGE_SIZE + o, data))
  }

  predicate CanEvict(s: State, f: nat) {
    && Shape(s) && f < NUM_PHYS_PAGES && s.used[f]
    && s.owner[f] < |s.spaces|
    && s.vpns[f] < |s.spaces[s.owner[f]].pageTable|
    && s.vpns[f] < |s.spaces[s.cur].pageTable|
  }

  /** The TLB copy of the victim's entry, if any, goes back to the running page table. */
  function Reclaim(s: State, f: nat): (s': State)
    requires CanEvict(s, f)
    ensures Shape(s')
  {
    var j := TlbFindFrame(s.tlb, f);
    if j < TLB_SIZE then
      SetPte(s, s.vpns[f], s.tlb[j]).(tlb := s.tlb[j := s.tlb[j].(valid := false)])
    else s
  }

  /** `EscribirFrameenSwap`: note that it edits the running page table, whoever owns the frame. */
  function Evict(s: State, f: nat): (s': State)
    requires CanEvict(s, f)
    ensures Shape(s')
  {
    var v := s.vpns[f];
    var r := Reclaim(s, f);
    var e := r.spaces[r.cur].pageTable[v];
    var o := r.spaces[r.owner[f]];
    var w := if e.dirty then
               r.(spaces := r.spaces[r.owner[f] :=
                 o.(swap := FileWriteAt(o.swap, v * PAGE_SIZE, Frame(r.memory, f)),
                    swapMap := o.swapMap[v := true])])
             else r;
    var e' := w.spaces[w.cur].pageTable[v];
    SetPte(w, v, e'.(dirty := false, valid := false))
  }

  /** `Coremap::Find` / `Coremap::Mark`: the frame now belongs to the running space. */
  function Claim(s: State, f: nat, v: nat): State
    requires Shape(s) && f < NUM_PHYS_PAGES
  {
    s.(used := s.used[f := true], owner := s.owner[f := s.cur], vpns := s.vpns[f := v])
  }

  /** The rest of `LoadPage`: map the page and fill the frame from its backing store. */
  function Fill(s: State, f: nat, v: nat): State
    requires Shape(s) && f < NUM_PHYS_PAGES && v < |s.spaces[s.cur].pageTable|
  {
    var e := s.spaces[s.cur].pageTable[v];
    SetPte(s, v, e.(physicalPage := f, valid := true))
      .(memory := PutFrame(s.memory, f, Backing(s.spaces[s.cur], v)))
  }

  /** The TLB half of the page-fault handler: write slot back, refill it, advance. */
  function Refill(s: State, v: nat): State
    requires Shape(s) && v < |s.spaces[s.cur].pageTable|
    requires s.tlb[s.slot].valid ==> s.tlb[s.slot].virtualPage < |s.spaces[s.cur].pageTable|
  {
    var old' := s.tlb[s.slot];
    var w := if old'.valid then SetPte(s, old'.virtualPage, old') else s;
    w.(tlb := w.tlb[s.slot := w.spaces[w.cur].pageTable[v]], slot := (s.slot + 1) % TLB_SIZE)
  }

  /** One iteration of `SaveState`. */
  function SaveSlot(s: State, j: nat): State
    requires Shape(s) && j < TLB_SIZE
    requires s.tlb[j].valid ==> s.tlb[j].virtualPage < |s.spaces[s.cur].pageTable|
  {
    if s.tlb[j].valid then
      var v := s.tlb[j].virtualPage;
      SetPte(s, v, s.spaces[s.cur].pageTable[v].(dirty := s.tlb[j].dirty, use := s.tlb[j].use))
        .(tlb := s.tlb[j := s.tlb[j].(valid := false)])
    else s
  }
}
