/** Starting a program: elf_load, then the first thread's stack. The program finds its image and its
    arguments, both through its own page tables. */
module ProgramStart {
  import opened Words
  import opened PhysicalMemory
  import opened FrameAllocator
  import opened RadixTree
  import opened PageTables
  import opened AddressSpaces
  import opened Regions
  import EL = ElfLoader
  import UT = UserThread
  import ST = InitialStack

  /** Zeroing frames that were free keeps every region. */
  lemma CallocKeepsRegion(m: Mem, n: nat, g: Region)
    requires MemOk(m) && Calloc(m, n).1.Some? && Holds(m, g) && Backed(m, g)
    ensures MemOk(Calloc(m, n).0) && KeptIn(m, Calloc(m, n).0, g)
  {
    CallocOk(m, n);
    var m1 := Calloc(m, n).0;
    assert Extends(m, m1);
    HoldsKept(m, m1, g);
    forall k: nat | k < g.pages ensures Backs(m1, g, k) {
      assert Backs(m, g, k);
      CallocKeepsEntry(m, n, g.root, Plus(g.va, k));
    }
  }

  /** Mapping pages keeps every region on other pages. */
  lemma MapPagesKeepsRegion(m: Mem, root: nat, pa: nat, va: nat, flags: nat, n: nat, m': Mem, g: Region)
    requires MemOk(m) && Root(m.tables, root) && flags < WORD && MapPages(m, root, pa, va, flags, n) == Some(m')
    requires Holds(m, g) && Backed(m, g) && Separate(g, Region(root, va, 0, n))
    ensures KeptIn(m, m', g)
  {
    HoldsKept(m, m', g);
    forall k: nat | k < g.pages ensures Backs(m', g, k) {
      assert Backs(m, g, k);
      MapPagesKeeps(m, root, pa, va, flags, n, g.root, Plus(g.va, k));
    }
  }

  /** Mapping the stack keeps every region on other pages, the page above the stack included. */
  lemma MapStackKeeps(m: Mem, root: nat, va: nat, n: nat, m2: Mem, b: nat, g: Region)
    requires MemOk(m) && Root(m.tables, root) && UT.MapStack(m, root, va, n) == Some((m2, b))
    requires Holds(m, g) && Backed(m, g) && Separate(g, Region(root, va, 0, n + 1))
    ensures KeptIn(m, m2, g) && forall f: nat :: g.Owns(f) ==> !Region(root, va, b, n).Owns(f)
  {
    CallocOk(m, n);
    var m1 := Calloc(m, n).0;
    CallocKeepsRegion(m, n, g);
    MapPagesKeepsRegion(m1, root, FRAME * b, va, USER_FLAGS, n + 1, m2, g);
    KeptTransitive(m, m1, m2, g);
    assert Fits(m.used, m.limit, b, n);
  }

  /** So does filling it. */
  lemma FillStackKeeps(m: Mem, root: nat, va: nat, n: nat, d: Ram, m3: Mem, g: Region)
    requires MemOk(m) && Root(m.tables, root) && |d| == FRAME * n && UT.FillStack(m, root, va, n, d) == Some(m3)
    requires Holds(m, g) && Backed(m, g) && Separate(g, Region(root, va, 0, n + 1))
    ensures KeptIn(m, m3, g)
  {
    var (m2, b) := UT.MapStack(m, root, va, n).value;
    MapStackKeeps(m, root, va, n, m2, b, g);
    UT.MapStackHolds(m, root, va, n);
    WrittenKeepsOther(m2, g, Region(root, va, b, n), FRAME * b, d);
    KeptTransitive(m, m2, m3, g);
  }

  /** A segment in memory is still read exactly after the stack has been set up on other pages. */
  lemma StackKeepsImage(m: Mem, root: nat, va: nat, n: nat, d: Ram, m3: Mem, f: EL.File, h: EL.Phdr, b: nat)
    requires MemOk(m) && Root(m.tables, root) && |d| == FRAME * n && UT.FillStack(m, root, va, n, d) == Some(m3)
    requires EL.SegmentIn(m, root, f, h, b, h.pages)
    requires Separate(EL.SegmentRegion(root, h, b, h.pages), Region(root, va, 0, n + 1))
    ensures EL.ImageAt(m3, root, f, h)
  {
    FillStackKeeps(m, root, va, n, d, m3, EL.SegmentRegion(root, h, b, h.pages));
    EL.SegmentKept(m, m3, root, f, h, b, h.pages);
    EL.SegmentReads(m3, root, f, h, b, h.pages);
  }

  lemma SeparateAnyFrames(g: Region, g': Region, h: Region)
    requires g' == g.(base := g'.base) && Separate(g, h)
    ensures Separate(g', h)
  {
  }

  /** After elf_load and the stack set-up, at every address of every loadable segment the program still
      reads the byte the file prescribes. */
  lemma {:induction false} StartedImage(m: Mem, root: nat, f: EL.File, aux: Aux, hs: seq<EL.Header>, j: nat, m1: Mem,
                                        lo: nat, n: nat, d: Ram, m3: Mem)
    requires MemOk(m) && Root(m.tables, root) && |f| >= EL.EHDR_SIZE && hs == EL.Headers(f)
    requires EL.ElfLoad(m, root, f, aux).Going? && m1 == EL.ElfLoad(m, root, f, aux).mem
    requires j < |hs| && EL.IsLoad(hs[j]) && EL.GoodSegment(f, hs[j].phdr) && EL.PagesApart(root, hs)
    requires |d| == FRAME * n && UT.FillStack(m1, root, lo, n, d) == Some(m3)
    requires Separate(EL.LoadRegion(root, hs[j]), Region(root, lo, 0, n + 1))
    ensures EL.ImageAt(m3, root, f, hs[j].phdr)
  {
    var h := hs[j].phdr;
    var b := EL.SegmentHeld(EL.Going(m, aux, None), root, f, hs, j);
    SeparateAnyFrames(EL.LoadRegion(root, hs[j]), EL.SegmentRegion(root, h, b, h.pages), Region(root, lo, 0, n + 1));
    StackKeepsImage(m1, root, lo, n, d, m3, f, h, b);
  }

  /** What elf_load reports is made of 64-bit values. */
  lemma AuxFits(m: Mem, root: nat, f: EL.File, aux: Aux)
    requires MemOk(m) && Root(m.tables, root) && |f| >= EL.EHDR_SIZE && EL.ElfLoad(m, root, f, aux).Going? && AuxOk(aux)
    ensures AuxOk(EL.ElfLoad(m, root, f, aux).aux)
  {
    EL.LoadedAux(m, root, f, aux);
    EL.FieldBound(f, 24, 8);
    EL.FieldBound(f, 54, 2);
    EL.FieldBound(f, 56, 2);
    PhdrFits(f, EL.Headers(f), aux.phdr);
  }

  lemma {:induction false} PhdrFits(f: EL.File, hs: seq<EL.Header>, was: nat)
    requires |f| >= EL.EHDR_SIZE && was < WORD && forall i :: 0 <= i < |hs| ==> hs[i] == EL.HeaderAt(f, i)
    ensures EL.PhdrAddress(hs, was) < WORD
    decreases |hs|
  {
    if hs != [] {
      var i := |hs| - 1;
      PhdrFits(f, hs[..i], was);
      if hs[i].Got? { EL.FieldBound(f, (EL.Field(f, 32, 8) + i * EL.Field(f, 54, 2)) % WORD + 16, 8); }
    }
  }

  /** What the program finds about its image: the file's entry point and program headers. */
  function ImagePairs(f: EL.File, was: nat): seq<(nat, nat)>
    requires |f| >= EL.EHDR_SIZE
  {
    ST.AuxPairs(Aux(EL.Field(f, 24, 8), EL.PhdrAddress(EL.Headers(f), was), EL.Field(f, 54, 2), EL.Field(f, 56, 2)))
  }

  /** The stack built for the file just loaded, with what elf_load reported about it. */
  ghost function StartStack(m: Mem, root: nat, f: EL.File, aux: Aux, argv: seq<Text>, envp: seq<Text>, top: nat): Ram
    requires MemOk(m) && Root(m.tables, root) && |f| >= EL.EHDR_SIZE && AuxOk(aux) && EL.ElfLoad(m, root, f, aux).Going?
    requires ST.StackFits(argv, envp) && ST.TopOk(top)
  {
    AuxFits(m, root, f, aux);
    ST.Built(argv, envp, EL.ElfLoad(m, root, f, aux).aux, top)
  }

  /** The started program: in one memory, through its own page tables, it reads its whole image, and the
      ABI's reader finds from the initial stack pointer its arguments, its environment and an auxiliary
      vector that describes the very file it was loaded from. */
  lemma {:induction false} StartedProgram(m: Mem, root: nat, f: EL.File, aux: Aux, hs: seq<EL.Header>, j: nat,
                                          m1: Mem, top: nat,
                                          lo: nat, n: nat, argv: seq<Text>, envp: seq<Text>, d: Ram, m3: Mem,
                                          rd: ST.Space, rw: ST.WordSpace, rsp: nat)
    requires MemOk(m) && Root(m.tables, root) && |f| >= EL.EHDR_SIZE && hs == EL.Headers(f) && AuxOk(aux)
    requires EL.ElfLoad(m, root, f, aux).Going? && m1 == EL.ElfLoad(m, root, f, aux).mem
    requires j < |hs| && EL.IsLoad(hs[j]) && EL.GoodSegment(f, hs[j].phdr) && EL.PagesApart(root, hs)
    requires Separate(EL.LoadRegion(root, hs[j]), Region(root, lo, 0, n + 1))
    requires ST.TopOk(top) && lo == top - ST.STACK_SIZE && UT.Placed(d, lo, n)
    requires ST.StackFits(argv, envp) && ST.CStrings(argv) && ST.CStrings(envp)
    requires rsp == ST.StackPointer(argv, envp, top) && d == StartStack(m, root, f, aux, argv, envp, top)
    requires UT.FillStack(m1, root, lo, n, d) == Some(m3) && rd == UT.SpaceOf(m3, root) && ST.Loads(rd, rw)
    ensures EL.ImageAt(m3, root, f, hs[j].phdr)
    ensures ST.ReadStartup(rd, rw, rsp) == Some(ST.Startup(argv, envp, ImagePairs(f, aux.phdr)))
  {
    StartedImage(m, root, f, aux, hs, j, m1, lo, n, d, m3);
    EL.LoadedAux(m, root, f, aux);
    AuxFits(m, root, f, aux);
    UT.ProgramStarts(m1, root, top, lo, n, argv, envp, EL.ElfLoad(m, root, f, aux).aux, d, m3, rd, rw, rsp);
  }
}
