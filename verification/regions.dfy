/** Runs of pages backed by consecutive frames, as program loading, the user stack and
    anonymous memory make them: pmm_calloc followed by vmm_map_pages. */
module Regions {
  import opened Words
  import opened PhysicalMemory
  import opened FrameAllocator
  import opened RadixTree
  import opened PageTables
  import opened AddressSpaces

  /** The byte a program with page map root reads at va, if the page is mapped to memory. */
  function ByteAt(m: Mem, root: nat, va: nat): Option<Byte>
  {
    var e := EntryFor(m, root, va);
    var a := FRAME * FrameOf(e) + va % FRAME;
    if Present(e) && a < |m.ram| then Some(m.ram[a]) else None
  }

  /** n pages from the page of va, backed by the frames from base on. */
  datatype Region = Region(root: nat, va: nat, base: nat, pages: nat) {
    predicate Owns(f: nat) { base <= f < base + pages }
  }

  /** Page k of the region is present and backed by frame base + k. */
  predicate Backs(m: Mem, g: Region, k: nat)
  {
    var e := EntryFor(m, g.root, Plus(g.va, k));
    Present(e) && FrameOf(e) == g.base + k
  }

  ghost predicate Backed(m: Mem, g: Region)
  {
    forall k: nat {:trigger Backs(m, g, k)} :: k < g.pages ==> Backs(m, g, k)
  }

  /** The region's frames are in use and are not page tables. */
  ghost predicate Holds(m: Mem, g: Region)
  {
    && Root(m.tables, g.root) && g.base + g.pages <= m.limit && FRAME * m.limit <= |m.ram|
    && forall f: nat :: g.Owns(f) ==> f in m.used && f !in m.tables
  }

  /** Addresses in one page have one translation. */
  lemma EntryForPage(m: Mem, root: nat, va: nat, vb: nat)
    requires Page(va) == Page(vb)
    ensures EntryFor(m, root, va) == EntryFor(m, root, vb)
  {
    SamePage(va, vb);
  }

  /** The page of the j-th byte after va. */
  lemma BytePage(va: nat, j: nat)
    ensures Page(va + j) == Page(Plus(va, (va % FRAME + j) / FRAME))
  {
    var k := (va % FRAME + j) / FRAME;
    PlusPage(va, k);
    assert (va + j) / FRAME == va / FRAME + k;
  }

  lemma ByteOffset(va: nat, j: nat, base: nat, pages: nat, k: nat)
    requires va % FRAME + j < FRAME * pages && k == (va % FRAME + j) / FRAME
    ensures k < pages
    ensures FRAME * (base + k) + (va + j) % FRAME == FRAME * base + va % FRAME + j
  {
  }

  lemma ByteVia(m: Mem, root: nat, va: nat, f: nat)
    requires Present(EntryFor(m, root, va)) && FrameOf(EntryFor(m, root, va)) == f
    requires FRAME * f + FRAME <= |m.ram|
    ensures ByteAt(m, root, va) == Some(m.ram[FRAME * f + va % FRAME])
  {
  }

  lemma PageByte(m: Mem, g: Region, k: nat, p: nat, v: nat)
    requires Backed(m, g) && Holds(m, g) && k < g.pages && p == Plus(g.va, k) && Page(v) == Page(p)
    ensures FRAME * (g.base + k) + FRAME <= |m.ram|
    ensures ByteAt(m, g.root, v) == Some(m.ram[FRAME * (g.base + k) + v % FRAME])
  {
    assert Backs(m, g, k);
    EntryForPage(m, g.root, v, p);
    ByteVia(m, g.root, v, g.base + k);
  }

  /** Through the page tables, the bytes from va on are the bytes of the frames. */
  lemma RegionByte(m: Mem, g: Region, j: nat, v: nat, a: nat)
    requires Backed(m, g) && Holds(m, g) && g.va % FRAME + j < FRAME * g.pages
    requires v == g.va + j && a == FRAME * g.base + g.va % FRAME + j
    ensures a < |m.ram| && ByteAt(m, g.root, v) == Some(m.ram[a])
  {
    var k := (g.va % FRAME + j) / FRAME;
    ByteOffset(g.va, j, g.base, g.pages, k);
    BytePage(g.va, j);
    assert a == FRAME * (g.base + k) + v % FRAME;
    PageByte(m, g, k, Plus(g.va, k), v);
  }

  lemma RegionByteIs(m: Mem, g: Region, root: nat, j: nat, v: nat, a: nat, x: Byte)
    requires g.root == root && Backed(m, g) && Holds(m, g) && g.va % FRAME + j < FRAME * g.pages
    requires v == g.va + j && a == FRAME * g.base + g.va % FRAME + j && (a < |m.ram| ==> m.ram[a] == x)
    ensures ByteAt(m, root, v) == Some(x)
  {
    RegionByte(m, g, j, v, a);
  }

  /** Flags that carry the present bit and no address bits. */
  predicate PlainFlags(flags: nat) { flags < WORD && Present(flags) && FrameOf(flags) == 0 }

  /** PTE_PRESENT | PTE_WRITABLE | PTE_USER */
  const USER_FLAGS := 7

  lemma UserFlagsPlain()
    ensures PlainFlags(USER_FLAGS)
  {
  }

  lemma {:induction false} PlainEntry(f: nat, flags: nat)
    requires f < 0x100_0000_0000 && PlainFlags(flags)
    ensures FrameOf(BitOr(FRAME * f, flags)) == f && Present(BitOr(FRAME * f, flags))
  {
    OrFrame(FRAME * f, flags);
    SumFields(FRAME * f, f, 0);
    OrZero(f, 0);
    OrOdd(FRAME * f, flags);
  }

  /** vmm_map_pages gives page k of the run the frame base + k. */
  lemma {:induction false} MappedFrame(m: Mem, root: nat, base: nat, va: nat, flags: nat, n: nat, k: nat, m': Mem)
    requires MemOk(m) && Root(m.tables, root) && PlainFlags(flags)
    requires base + k < 0x100_0000_0000 && k < n <= 0x10_0000_0000
    requires MapPages(m, root, FRAME * base, va, flags, n) == Some(m')
    ensures Present(EntryFor(m', root, Plus(va, k))) && FrameOf(EntryFor(m', root, Plus(va, k))) == base + k
  {
    MapPagesSets(m, root, FRAME * base, va, flags, n, k);
    PlusFrame(base, k);
    PlainEntry(base + k, flags);
  }

  lemma PlusFrame(base: nat, k: nat)
    requires base + k < 0x100_0000_0000
    ensures Plus(FRAME * base, k) == FRAME * (base + k)
  {
  }

  /** A region keeps its frames through any growth of the page tables. */
  lemma HoldsKept(m: Mem, m': Mem, g: Region)
    requires Holds(m, g) && Extends(m, m')
    ensures Holds(m', g)
    ensures forall a :: FRAME * g.base <= a < FRAME * (g.base + g.pages) ==> m'.ram[a] == m.ram[a]
  {
    forall a | FRAME * g.base <= a < FRAME * (g.base + g.pages) ensures m'.ram[a] == m.ram[a] {
      assert g.Owns(a / FRAME);
    }
  }

  // ----- pmm_calloc and vmm_map_pages together -----

  datatype Outcome = Done(mem: Mem, base: nat) | NoFrames(mem: Mem) | Halted

  /** Allocate n zeroed frames and map them from va on. */
  function Populate(m: Mem, root: nat, va: nat, flags: nat, n: nat): (r: Outcome)
    requires MemOk(m) && Root(m.tables, root) && flags < WORD
    ensures r.Done? ==> MemOk(r.mem)
  {
    CallocOk(m, n);
    var (m1, b) := Calloc(m, n);
    if b.None? then NoFrames(m1)
    else
      match MapPages(m1, root, FRAME * b.value, va, flags, n)
      case None => Halted
      case Some(m2) => Done(m2, b.value)
  }

  /** The frames a successful Populate takes were free, and the page tables it builds on the
      way do not use them. */
  lemma PopulateHolds(m: Mem, root: nat, va: nat, flags: nat, n: nat)
    requires MemOk(m) && Root(m.tables, root) && flags < WORD
    requires Populate(m, root, va, flags, n).Done?
    ensures
      var Done(m', b) := Populate(m, root, va, flags, n);
      var g := Region(root, va, b, n);
      && Holds(m', g) && (forall f: nat :: g.Owns(f) ==> f !in m.used)
      && (forall a :: FRAME * b <= a < FRAME * (b + n) ==> m'.ram[a] == 0)
  {
    CallocOk(m, n);
    var (m1, r) := Calloc(m, n);
    var b := r.value;
    var g := Region(root, va, b, n);
    assert Fits(m.used, m.limit, b, n);
    assert Holds(m1, g);
    var m' := Populate(m, root, va, flags, n).mem;
    HoldsKept(m1, m', g);
    forall a | FRAME * b <= a < FRAME * (b + n) ensures m'.ram[a] == 0 { assert m1.ram[a] == 0; }
  }

  lemma PopulateBacks(m: Mem, root: nat, va: nat, flags: nat, n: nat)
    requires MemOk(m) && Root(m.tables, root) && PlainFlags(flags) && n <= 0x10_0000_0000
    requires Populate(m, root, va, flags, n).Done?
    ensures
      var Done(m', b) := Populate(m, root, va, flags, n);
      Backed(m', Region(root, va, b, n))
  {
    CallocOk(m, n);
    var (m1, r) := Calloc(m, n);
    var m' := Populate(m, root, va, flags, n).mem;
    var g := Region(root, va, r.value, n);
    forall k: nat | k < n ensures Backs(m', g, k) {
      MappedFrame(m1, root, r.value, va, flags, n, k, m');
    }
  }

  /** Everything already in use survives: its contents and, page tables apart, its frames. */
  lemma PopulateExtends(m: Mem, root: nat, va: nat, flags: nat, n: nat)
    requires MemOk(m) && Root(m.tables, root) && flags < WORD
    requires Populate(m, root, va, flags, n).Done?
    ensures Extends(m, Populate(m, root, va, flags, n).mem)
  {
    CallocOk(m, n);
    var m1 := Calloc(m, n).0;
    assert Extends(m, m1);
    ExtendsTransitive(m, m1, Populate(m, root, va, flags, n).mem);
  }

  /** m' is m with one more region, zero-filled and backed by frames that were free. */
  ghost predicate Fresh(m: Mem, m': Mem, g: Region)
  {
    && MemOk(m') && Extends(m, m') && Holds(m', g) && Backed(m', g)
    && (forall f: nat :: g.Owns(f) ==> f !in m.used)
    && ZeroFilled(m', g)
  }

  ghost predicate ZeroFilled(m: Mem, g: Region)
  {
    forall a :: FRAME * g.base <= a < FRAME * (g.base + g.pages) && a < |m.ram| ==> m.ram[a] == 0
  }

  lemma PopulateFresh(m: Mem, root: nat, va: nat, flags: nat, n: nat)
    requires MemOk(m) && Root(m.tables, root) && PlainFlags(flags) && n <= 0x10_0000_0000
    requires Populate(m, root, va, flags, n).Done?
    ensures
      var Done(m', b) := Populate(m, root, va, flags, n);
      Fresh(m, m', Region(root, va, b, n))
  {
    PopulateHolds(m, root, va, flags, n);
    PopulateBacks(m, root, va, flags, n);
    PopulateExtends(m, root, va, flags, n);
  }

  /** Clearing fresh frames changes no translation. */
  lemma CallocKeepsEntry(m: Mem, n: nat, b: nat, vb: nat)
    requires MemOk(m) && Root(m.tables, b) && Calloc(m, n).1.Some?
    ensures EntryFor(Calloc(m, n).0, b, vb) == EntryFor(m, b, vb)
  {
    CallocOk(m, n);
    SameKeepsReach(View(m), View(Calloc(m, n).0), m.tables, b, Upper(vb));
  }

  /** Pages outside the new range keep their translation; in the lower half so do all pages
      of every other page map. */
  lemma PopulateKeepsEntry(m: Mem, root: nat, va: nat, flags: nat, n: nat, b: nat, vb: nat)
    requires MemOk(m) && Root(m.tables, root) && Root(m.tables, b) && flags < WORD
    requires Populate(m, root, va, flags, n).Done?
    requires forall k :: 0 <= k < n ==> Page(Plus(va, k)) != Page(vb) || (b != root && LowerHalf(Plus(va, k)))
    ensures EntryFor(Populate(m, root, va, flags, n).mem, b, vb) == EntryFor(m, b, vb)
  {
    CallocOk(m, n);
    CallocKeepsEntry(m, n, b, vb);
    var (m1, r) := Calloc(m, n);
    MapPagesKeeps(m1, root, FRAME * r.value, va, flags, n, b, vb);
  }

  /** The pages of two regions do not meet. */
  ghost predicate Separate(g: Region, h: Region)
  {
    forall j: nat, k: nat {:trigger Plus(g.va, j), Plus(h.va, k)} ::
      j < g.pages && k < h.pages ==>
        Page(Plus(g.va, j)) != Page(Plus(h.va, k)) || (g.root != h.root && LowerHalf(Plus(h.va, k)))
  }

  /** A region that is already backed stays backed by the same frames, and its bytes stay. */
  lemma PopulateKeepsRegion(m: Mem, g: Region, root: nat, va: nat, flags: nat, n: nat)
    requires MemOk(m) && Root(m.tables, root) && flags < WORD
    requires Populate(m, root, va, flags, n).Done?
    requires Holds(m, g) && Backed(m, g)
    requires Separate(g, Region(root, va, Populate(m, root, va, flags, n).base, n))
    ensures
      var m' := Populate(m, root, va, flags, n).mem;
      && Holds(m', g) && Backed(m', g)
      && (forall a :: FRAME * g.base <= a < FRAME * (g.base + g.pages) ==> m'.ram[a] == m.ram[a])
  {
    var m' := Populate(m, root, va, flags, n).mem;
    PopulateExtends(m, root, va, flags, n);
    HoldsKept(m, m', g);
    forall k: nat | k < g.pages ensures Backs(m', g, k) {
      assert Backs(m, g, k);
      PopulateKeepsEntry(m, root, va, flags, n, g.root, Plus(g.va, k));
    }
  }

  // ----- Writes to data frames -----

  /** No byte of the range lies in a page table. */
  ghost predicate DataOnly(m: Mem, a: nat, n: nat)
  {
    a + n <= |m.ram| && forall k :: a <= k < a + n ==> k / FRAME !in m.tables
  }

  function Written(m: Mem, a: nat, d: seq<Byte>): Mem
    requires a + |d| <= |m.ram|
  {
    m.(ram := Blit(m.ram, a, d))
  }

  /** Writing data leaves every page table as it is. */
  lemma WrittenSame(m: Mem, a: nat, d: seq<Byte>)
    requires DataOnly(m, a, |d|)
    ensures Same(View(m), View(Written(m, a, d)), m.tables)
  {
    var m' := Written(m, a, d);
    forall g, j | g in m.tables && 0 <= j < 512 ensures View(m')(g, j) == View(m)(g, j) {
      var w: nat := FRAME * g + 8 * j;
      forall k | w <= k < w + 8 && k < |m.ram| ensures m'.ram[k] == m.ram[k] {
        assert k / FRAME == g;
      }
      WordFrame(m.ram, m'.ram, w);
    }
  }

  lemma WrittenOk(m: Mem, a: nat, d: seq<Byte>)
    requires MemOk(m) && DataOnly(m, a, |d|)
    ensures MemOk(Written(m, a, d))
  {
    WrittenSame(m, a, d);
    SameForest(View(m), View(Written(m, a, d)), m.tables);
  }

  /** Writing data changes no translation. */
  lemma WrittenKeepsEntry(m: Mem, a: nat, d: seq<Byte>, b: nat, vb: nat)
    requires MemOk(m) && DataOnly(m, a, |d|) && Root(m.tables, b)
    ensures EntryFor(Written(m, a, d), b, vb) == EntryFor(m, b, vb)
  {
    WrittenSame(m, a, d);
    SameKeepsReach(View(m), View(Written(m, a, d)), m.tables, b, Upper(vb));
  }

  lemma WrittenKeepsRegion(m: Mem, g: Region, a: nat, d: seq<Byte>)
    requires MemOk(m) && DataOnly(m, a, |d|) && Holds(m, g) && Backed(m, g)
    ensures Holds(Written(m, a, d), g) && Backed(Written(m, a, d), g)
  {
    var m' := Written(m, a, d);
    forall k: nat | k < g.pages ensures Backs(m', g, k) {
      assert Backs(m, g, k);
      WrittenKeepsEntry(m, a, d, g.root, Plus(g.va, k));
    }
  }

  /** A stretch inside a region's frames is data. */
  lemma RegionIsData(m: Mem, g: Region, a: nat, n: nat)
    requires Holds(m, g) && FRAME * g.base <= a && a + n <= FRAME * (g.base + g.pages)
    ensures DataOnly(m, a, n)
  {
    forall k | a <= k < a + n ensures k / FRAME !in m.tables {
      assert g.Owns(k / FRAME);
    }
  }

  /** A region is still held and backed, with the same bytes. */
  ghost predicate KeptIn(m: Mem, m': Mem, g: Region)
  {
    && Holds(m', g) && Backed(m', g) && |m'.ram| == |m.ram|
    && forall a :: FRAME * g.base <= a < FRAME * (g.base + g.pages) && a < |m.ram| ==> m'.ram[a] == m.ram[a]
  }

  lemma KeptTransitive(m: Mem, m1: Mem, m2: Mem, g: Region)
    requires KeptIn(m, m1, g) && KeptIn(m1, m2, g)
    ensures KeptIn(m, m2, g)
  {
  }

  /** Writing into the frames of one region keeps a region with other frames. */
  lemma WrittenKeepsOther(m: Mem, g: Region, h: Region, a: nat, d: seq<Byte>)
    requires MemOk(m) && Holds(m, g) && Backed(m, g) && Holds(m, h)
    requires FRAME * h.base <= a && a + |d| <= FRAME * (h.base + h.pages)
    requires forall f: nat :: g.Owns(f) ==> !h.Owns(f)
    ensures KeptIn(m, Written(m, a, d), g)
  {
    var m' := Written(m, a, d);
    RegionIsData(m, h, a, |d|);
    WrittenKeepsRegion(m, g, a, d);
    forall k | FRAME * g.base <= k < FRAME * (g.base + g.pages) && k < |m.ram| ensures m'.ram[k] == m.ram[k] {
      assert g.Owns(k / FRAME);
      assert !h.Owns(k / FRAME);
    }
  }
}
