/** Frames to spare: when the page-table operations are sure to succeed, and, on a machine that has just
    booted, inputs on which the laws proved only under a condition fail. */
module SpareFrames {
  import opened Words
  import opened PhysicalMemory
  import opened FrameAllocator
  import opened RadixTree
  import opened PageTables
  import opened AddressSpaces
  import opened AddressSpaceRuns
  import opened Regions
  import AM = AnonymousMemory
  import EL = ElfLoader

  // ----- Enough frames for success -----

  lemma CallocSpare(m: Mem)
    requires MemOk(m) && |Spare(m.used, m.limit)| >= 1
    ensures
      var (m1, b) := Calloc(m, 1);
      b.Some? && MemOk(m1) && m1.limit == m.limit && m1.tables == m.tables
      && |Spare(m1.used, m1.limit)| == |Spare(m.used, m.limit)| - 1
  {
    SpareFits(m.used, m.limit);
    SpareTaken(m.used, m.limit, FirstFit(m.used, m.limit, 1).value);
    CallocOk(m, 1);
  }

  lemma {:induction false} NextSpare(m: Mem, f: nat, i: nat)
    requires MemOk(m) && Inner(m, f, i) && |Spare(m.used, m.limit)| >= 1
    ensures NextLevel(m, f, i).Some?
    ensures var m1 := NextLevel(m, f, i).value.0; |Spare(m1.used, m1.limit)| >= |Spare(m.used, m.limit)| - 1
  {
    CallocSpare(m);
  }

  /** Going down k levels takes at most k frames. */
  lemma {:induction false} DescendSpare(m: Mem, f: nat, idx: seq<nat>)
    requires MemOk(m) && Below(m, f, idx) && |Spare(m.used, m.limit)| >= |idx|
    ensures Descend(m, f, idx).Some?
    ensures var m1 := Descend(m, f, idx).value.0; |Spare(m1.used, m1.limit)| >= |Spare(m.used, m.limit)| - |idx|
    decreases |idx|
  {
    if idx != [] {
      NextSpare(m, f, idx[0]);
      var (m1, g) := NextLevel(m, f, idx[0]).value;
      DescendSpare(m1, g, idx[1..]);
    }
  }

  /** With three frames to spare, any page can be mapped. */
  lemma SetEntrySpare(m: Mem, root: nat, va: nat, w: nat)
    requires MemOk(m) && Root(m.tables, root) && w < WORD && |Spare(m.used, m.limit)| >= 3
    ensures SetEntry(m, root, va, w).Some?
    ensures var m1 := SetEntry(m, root, va, w).value; |Spare(m1.used, m1.limit)| >= |Spare(m.used, m.limit)| - 3
  {
    DescendSpare(m, root, Upper(va));
  }

  lemma {:induction false} StoreOneSpare(m: Mem, root: nat, js: seq<Job>)
    requires MemOk(m) && Root(m.tables, root) && Words64(js) && |js| == 1 && |Spare(m.used, m.limit)| >= 3
    ensures StoreAll(m, root, js).Some?
  {
    SetEntrySpare(m, root, js[0].va, js[0].w);
    assert js[..0] == [] && StoreAll(m, root, js[..0]) == Some(m);
  }

  /** With four, a page of fresh memory. */
  lemma PopulateSpare(m: Mem, root: nat, va: nat, flags: nat)
    requires MemOk(m) && Root(m.tables, root) && flags < WORD && |Spare(m.used, m.limit)| >= 4
    ensures Populate(m, root, va, flags, 1).Done?
  {
    CallocSpare(m);
    var (m1, b) := Calloc(m, 1);
    StoreOneSpare(m1, root, Jobs(FRAME * b.value, va, flags, 1));
  }

  /** With two, a page map. */
  lemma NewSpaceSpare(m: Mem, k: nat)
    requires MemOk(m) && Root(m.tables, k) && |Spare(m.used, m.limit)| >= 2
    ensures NewSpace(m, k).Some?
    ensures var m1 := NewSpace(m, k).value.0; |Spare(m1.used, m1.limit)| == |Spare(m.used, m.limit)| - 2
  {
    CallocSpare(m);
    CallocSpare(Calloc(m, 1).0);
  }

  // ----- A machine that has just booted -----

  /** Eight frames of zeros but for the first byte; frame 1 is the kernel's root table. */
  function Booted(first: Byte, used: set<nat>): Mem
  {
    Mem([first] + Zeros(8 * FRAME - 1), used, 8, map[1 := Place(1, [], 1)])
  }

  lemma BootedOk(first: Byte, used: set<nat>)
    requires 1 in used
    ensures MemOk(Booted(first, used)) && Root(Booted(first, used).tables, 1)
    ensures forall i: nat :: i < 512 ==> View(Booted(first, used))(1, i) == 0
  {
    var m := Booted(first, used);
    forall i: nat | i < 512 ensures View(m)(1, i) == 0 { WordZero(m.ram, FRAME * 1 + 8 * i); }
    assert PlaceOk(m.tables, 1);
  }

  lemma BootedSpare()
    ensures |Spare({1}, 8)| == 6
  {
    assert Spare({1}, 8) == {2, 3, 4, 5, 6, 7};
  }

  // ----- Inputs on which a law fails -----

  /** A page mapped to an address that is not frame-aligned does not translate back to it. */
  lemma UnalignedIsLost(va: nat)
    ensures
      var m := Booted(0, {1});
      && MemOk(m) && Root(m.tables, 1) && MapPage(m, 1, 1, va, USER_FLAGS).Some?
      && var m1 := MapPage(m, 1, 1, va, USER_FLAGS).value;
         VirtToPhys(m1, 1, va).Some? && VirtToPhys(m1, 1, va).value.1 != 1
  {
    var m := Booted(0, {1});
    BootedOk(0, {1});
    BootedSpare();
    EntryWord(1, USER_FLAGS);
    SetEntrySpare(m, 1, va, BitOr(1, USER_FLAGS));
    var m1 := MapPage(m, 1, 1, va, USER_FLAGS).value;
    DescendSpare(m1, 1, Upper(va));
    MapThenLookup(m, 1, 1, va, USER_FLAGS);
  }

  /** The first kernel mapping under a root-level entry, made after a page map was created, does not show
      up in that page map. */
  lemma LateMappingIsHidden(va: nat, w: nat)
    requires !LowerHalf(va) && 0 < w < WORD
    ensures
      var m := Booted(0, {1});
      && MemOk(m) && Root(m.tables, 1) && NewSpace(m, 1).Some?
      && var (m1, t) := NewSpace(m, 1).value;
         SetEntry(m1, 1, va, w).Some? && EntryFor(SetEntry(m1, 1, va, w).value, t, va) != w
  {
    var m := Booted(0, {1});
    BootedOk(0, {1});
    BootedSpare();
    NewSpaceSpare(m, 1);
    var (m1, t) := NewSpace(m, 1).value;
    SetEntrySpare(m1, 1, va, w);
    assert View(m)(1, Upper(va)[0]) == 0;
    assert EntryFor(m, 1, va) == 0;
    NewSpaceEntries(m, 1, t, va);
    assert ExecAll(m1, 1, []) == Some(m1);
    KernelMappingVisible(m, 1, [], va, w);
  }

  /** A segment of zeros only, with no bytes in the file, halts the kernel. */
  lemma ZeroSegmentHalts(f: EL.File)
    ensures
      var m, h := Booted(0, {1}), EL.Phdr(EL.PT_LOAD, 0, 0x40_0000, 0, 100, 1);
      && MemOk(m) && Root(m.tables, 1) && EL.GoodSegment(f, h) && Populate(m, 1, h.vaddr, USER_FLAGS, 1).Done?
      && !EL.LoadSegment(m, 1, f, h, 1).Loaded?
  {
    var m, h := Booted(0, {1}), EL.Phdr(EL.PT_LOAD, 0, 0x40_0000, 0, 100, 1);
    BootedOk(0, {1});
    BootedSpare();
    PopulateSpare(m, 1, h.vaddr, USER_FLAGS);
    EL.GoodSegmentLoads(m, 1, f, h);
  }

  /** With every frame in use, a request for one page fails and clears the first byte of memory. */
  lemma FailedRequestWipes(prot: nat, base: nat)
    requires prot < WORD
    ensures
      var m := Booted(1, {1, 2, 3, 4, 5, 6, 7});
      && MemOk(m) && Root(m.tables, 1)
      && var r := AM.Mmap(m, 1, base, 0, 1, prot, true, false);
         r.Failed? && r.mem.ram != m.ram
  {
    var used := {1, 2, 3, 4, 5, 6, 7};
    var m := Booted(1, used);
    BootedOk(1, used);
    assert AM.PageCount(1) == 1;
    assert forall b: nat :: !Fits(used, 8, b, 1);
    assert FirstFit(used, 8, 1).None?;
    AM.FailureClears(m, 1, base, 1, prot);
    assert m.ram[0] == 1;
  }
}
