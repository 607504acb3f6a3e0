/** Program loading: elf_load of src/lib/elf.c over the page tables. */
module ElfLoader {
  import opened Words
  import opened PhysicalMemory
  import opened FrameAllocator
  import opened RadixTree
  import opened PageTables
  import opened AddressSpaces
  import opened Regions

  type File = seq<Byte>

  /** A field of n bytes at offset o. */
  function Field(f: File, o: nat, n: nat): nat
    requires o + n <= |f|
  {
    Decode(f[o..o + n])
  }

  const EHDR_SIZE := 64
  const PHDR_SIZE := 56
  const PT_LOAD := 1
  const PT_INTERP := 3
  const PT_PHDR := 6

  /** The tests of check_headers on the ELF header. */
  predicate CheckHeaders(f: File)
    requires |f| >= EHDR_SIZE
  {
    && f[0] == 0x7f && f[1] == 0x45 && f[2] == 0x4c && f[3] == 0x46
    && f[4] == 2 && f[5] == 1
    && Field(f, 18, 2) == 62 && Field(f, 20, 4) == 1
  }

  /** A program header, with the number of pages the loader computes for it. */
  datatype Phdr = Phdr(kind: nat, offset: nat, vaddr: nat, filesz: nat, memsz: nat, pages: nat)

  /** The size from the start of the first page, rounded up to pages in 64-bit arithmetic. */
  function SegmentPages(vaddr: nat, memsz: nat): nat { (memsz + vaddr % FRAME + FRAME - 1) % WORD / FRAME }

  function ParsePhdr(f: File, o: nat): (h: Phdr)
    requires o + PHDR_SIZE <= |f|
    ensures h.memsz + h.vaddr % FRAME <= 0x1_0000_0000_0000 ==>
              h.vaddr % FRAME + h.memsz <= FRAME * h.pages && h.pages <= 0x10_0000_0000
  {
    var vaddr, memsz := Field(f, o + 16, 8), Field(f, o + 40, 8);
    Phdr(Field(f, o, 4), Field(f, o + 8, 8), vaddr, Field(f, o + 32, 8), memsz, SegmentPages(vaddr, memsz))
  }

  /** vfs_read on a tmpfs file: the count is cut at the end of the file. None when the offset
      lies past the end, where the size computation wraps and the copy leaves the file's contents. */
  function ReadFile(f: File, o: nat, count: nat): (r: Option<seq<Byte>>)
    ensures r.Some? ==> |r.value| <= count
  {
    if o > |f| then None else Some(f[o..o + Min(count, |f| - o)])
  }

  /** How loading can end. Overrun covers every copy outside its buffer: a read past the file
      or file data that does not fit the frames allocated for its segment. */
  datatype Load = Loaded(mem: Mem) | Rejected | Halt | Overrun

  /** The PT_LOAD case, with n pages for the segment. */
  function LoadSegment(m: Mem, root: nat, f: File, h: Phdr, n: nat): (r: Load)
    requires MemOk(m) && Root(m.tables, root)
    ensures r.Loaded? ==> MemOk(r.mem) && Root(r.mem.tables, root)
  {
    match Populate(m, root, h.vaddr, USER_FLAGS, n)
    case Halted => Halt
    case NoFrames(_) => Rejected
    case Done(m1, b) => CopySegment(m, m1, root, f, h, n, b)
  }

  /** The copy of the file data to the kernel's alias of the segment's frames. The result of
      the read is an int, so the assertion on it fails for multiples of 2^32. */
  function CopySegment(m: Mem, m1: Mem, root: nat, f: File, h: Phdr, n: nat, b: nat): (r: Load)
    requires MemOk(m) && Root(m.tables, root)
    requires Populate(m, root, h.vaddr, USER_FLAGS, n) == Done(m1, b)
    ensures r.Loaded? ==> MemOk(r.mem) && Root(r.mem.tables, root)
  {
    PopulateHolds(m, root, h.vaddr, USER_FLAGS, n);
    CopyInto(m1, Region(root, h.vaddr, b, n), h.vaddr % FRAME, ReadFile(f, h.offset, h.filesz))
  }

  function CopyInto(m: Mem, g: Region, o: nat, d: Option<seq<Byte>>): (r: Load)
    requires MemOk(m) && Holds(m, g)
    ensures r.Loaded? ==> MemOk(r.mem) && r.mem.tables == m.tables
  {
    if d.None? || o + |d.value| > FRAME * g.pages then Overrun
    else if IntZero(|d.value|) then Halt
    else
      CopyOk(m, g, o, d.value);
      Loaded(Written(m, FRAME * g.base + o, d.value))
  }

  /** A count that is 0 as an int. */
  predicate IntZero(n: nat) { n % 0x1_0000_0000 == 0 }

  lemma CopyOk(m: Mem, g: Region, o: nat, d: seq<Byte>)
    requires MemOk(m) && Holds(m, g) && o + |d| <= FRAME * g.pages
    ensures DataOnly(m, FRAME * g.base + o, |d|) && MemOk(Written(m, FRAME * g.base + o, d))
  {
    RegionIsData(m, g, FRAME * g.base + o, |d|);
    WrittenOk(m, FRAME * g.base + o, d);
  }

  // ----- One segment -----

  /** File data no larger than memory, file data inside the file, and a memory size for which
      the page count neither wraps nor exceeds the address space. */
  predicate GoodSegment(f: File, h: Phdr)
  {
    && h.filesz <= h.memsz && h.offset + h.filesz <= |f|
    && h.vaddr % FRAME + h.memsz <= FRAME * h.pages && h.pages <= 0x10_0000_0000
  }

  function SegmentRegion(root: nat, h: Phdr, b: nat, n: nat): Region { Region(root, h.vaddr, b, n) }

  /** Byte k of the segment's image. */
  function ImageByte(f: File, h: Phdr, k: nat): Byte
  {
    if k < h.filesz && h.offset + k < |f| then f[h.offset + k] else 0
  }

  /** The segment's image stands in memory from a on. */
  ghost predicate ImageIn(m: Mem, f: File, h: Phdr, a: nat)
  {
    forall k: nat {:trigger ImageByte(f, h, k)} :: k < h.memsz && a + k < |m.ram| ==> m.ram[a + k] == ImageByte(f, h, k)
  }

  /** The segment sits in the n frames from b on. */
  ghost predicate SegmentIn(m: Mem, root: nat, f: File, h: Phdr, b: nat, n: nat)
  {
    && Holds(m, SegmentRegion(root, h, b, n)) && Backed(m, SegmentRegion(root, h, b, n))
    && h.vaddr % FRAME + h.memsz <= FRAME * n
    && ImageIn(m, f, h, FRAME * b + h.vaddr % FRAME)
  }

  /** The program reads byte k of the segment's image at its address. */
  predicate ReadsAt(m: Mem, root: nat, f: File, h: Phdr, k: nat)
  {
    ByteAt(m, root, h.vaddr + k) == Some(ImageByte(f, h, k))
  }

  /** The program reads the segment's image at its addresses. */
  ghost predicate ImageAt(m: Mem, root: nat, f: File, h: Phdr)
  {
    forall k: nat :: k < h.memsz ==> ReadsAt(m, root, f, h, k)
  }

  lemma ImageHas(m: Mem, f: File, h: Phdr, a: nat, k: nat, at: nat)
    requires ImageIn(m, f, h, a) && k < h.memsz && at == a + k
    ensures at < |m.ram| ==> m.ram[at] == ImageByte(f, h, k)
  {
  }

  lemma SegmentByte(m: Mem, root: nat, f: File, h: Phdr, b: nat, n: nat, k: nat, v: nat, a: nat, at: nat)
    requires SegmentIn(m, root, f, h, b, n) && k < h.memsz && v == h.vaddr + k
    requires a == FRAME * b + h.vaddr % FRAME && at == a + k
    ensures ByteAt(m, root, v) == Some(ImageByte(f, h, k))
  {
    ImageHas(m, f, h, a, k, at);
    RegionByteIs(m, SegmentRegion(root, h, b, n), root, k, v, at, ImageByte(f, h, k));
  }

  lemma ReadsThere(m: Mem, root: nat, f: File, h: Phdr, k: nat, v: nat)
    requires v == h.vaddr + k && ByteAt(m, root, v) == Some(ImageByte(f, h, k))
    ensures ReadsAt(m, root, f, h, k)
  {
  }

  lemma SegmentReads(m: Mem, root: nat, f: File, h: Phdr, b: nat, n: nat)
    requires SegmentIn(m, root, f, h, b, n)
    ensures ImageAt(m, root, f, h)
  {
    var a := FRAME * b + h.vaddr % FRAME;
    forall k: nat | k < h.memsz ensures ReadsAt(m, root, f, h, k) {
      SegmentByte(m, root, f, h, b, n, k, h.vaddr + k, a, a + k);
      ReadsThere(m, root, f, h, k, h.vaddr + k);
    }
  }

  /** File data copied over zeros is the image. */
  lemma BlitImage(r: Ram, f: File, h: Phdr, a: nat)
    requires GoodSegment(f, h) && a + h.memsz <= |r| && forall k :: a <= k < a + h.memsz ==> r[k] == 0
    ensures
      var r' := Blit(r, a, f[h.offset..h.offset + h.filesz]);
      forall k: nat :: k < h.memsz ==> r'[a + k] == ImageByte(f, h, k)
  {
  }

  /** Copying the file data into zeroed frames makes the image. */
  lemma CopyMakesImage(m1: Mem, root: nat, f: File, h: Phdr, b: nat, n: nat, a: nat, d: seq<Byte>)
    requires MemOk(m1) && GoodSegment(f, h) && h.vaddr % FRAME + h.memsz <= FRAME * n
    requires Holds(m1, SegmentRegion(root, h, b, n)) && Backed(m1, SegmentRegion(root, h, b, n))
    requires ZeroFilled(m1, SegmentRegion(root, h, b, n)) && DataOnly(m1, a, |d|)
    requires a == FRAME * b + h.vaddr % FRAME && d == f[h.offset..h.offset + h.filesz]
    ensures SegmentIn(Written(m1, a, d), root, f, h, b, n)
  {
    WrittenKeepsRegion(m1, SegmentRegion(root, h, b, n), a, d);
    BlitImage(m1.ram, f, h, a);
  }

  /** The one place where LoadSegment is taken apart. */
  lemma LoadSegmentIs(m: Mem, root: nat, f: File, h: Phdr, n: nat, m1: Mem, b: nat)
    requires MemOk(m) && Root(m.tables, root) && Populate(m, root, h.vaddr, USER_FLAGS, n) == Done(m1, b)
    ensures Holds(m1, SegmentRegion(root, h, b, n))
    ensures LoadSegment(m, root, f, h, n) ==
            CopyInto(m1, SegmentRegion(root, h, b, n), h.vaddr % FRAME, ReadFile(f, h.offset, h.filesz))
  {
    PopulateHolds(m, root, h.vaddr, USER_FLAGS, n);
  }

  lemma CopyIntoIs(m: Mem, g: Region, o: nat, d: seq<Byte>, a: nat)
    requires MemOk(m) && Holds(m, g) && o + |d| <= FRAME * g.pages && a == FRAME * g.base + o
    ensures DataOnly(m, a, |d|) && CopyInto(m, g, o, Some(d)) == if IntZero(|d|) then Halt else Loaded(Written(m, a, d))
  {
    CopyOk(m, g, o, d);
  }

  /** Copying a good segment into fresh frames. */
  lemma CopiedSegment(m1: Mem, root: nat, f: File, h: Phdr, b: nat, n: nat, o: nat, d: seq<Byte>, a: nat)
    requires MemOk(m1) && GoodSegment(f, h) && n == h.pages && Holds(m1, SegmentRegion(root, h, b, n))
    requires Backed(m1, SegmentRegion(root, h, b, n)) && ZeroFilled(m1, SegmentRegion(root, h, b, n))
    requires o == h.vaddr % FRAME && d == f[h.offset..h.offset + h.filesz] && a == FRAME * b + o
    ensures
      var r := CopyInto(m1, SegmentRegion(root, h, b, n), o, Some(d));
      (r.Loaded? <==> !IntZero(h.filesz)) && r != Overrun && (r.Loaded? ==> SegmentIn(r.mem, root, f, h, b, n))
  {
    CopyIntoIs(m1, SegmentRegion(root, h, b, n), o, d, a);
    CopyMakesImage(m1, root, f, h, b, n, a, d);
  }

  lemma LoadedSegment(m: Mem, root: nat, f: File, h: Phdr, m1: Mem, b: nat)
    requires MemOk(m) && Root(m.tables, root) && GoodSegment(f, h)
    requires Populate(m, root, h.vaddr, USER_FLAGS, h.pages) == Done(m1, b)
    ensures
      var r := LoadSegment(m, root, f, h, h.pages);
      (r.Loaded? <==> !IntZero(h.filesz)) && r != Overrun && (r.Loaded? ==> SegmentIn(r.mem, root, f, h, b, h.pages))
  {
    UserFlagsPlain();
    PopulateFresh(m, root, h.vaddr, USER_FLAGS, h.pages);
    LoadSegmentIs(m, root, f, h, h.pages, m1, b);
    WholeRead(f, h);
    var o := h.vaddr % FRAME;
    CopiedSegment(m1, root, f, h, b, h.pages, o, f[h.offset..h.offset + h.filesz], FRAME * b + o);
  }

  lemma WholeRead(f: File, h: Phdr)
    requires GoodSegment(f, h)
    ensures ReadFile(f, h.offset, h.filesz) == Some(f[h.offset..h.offset + h.filesz])
  {
  }

  /** What is copied into fresh frames stays inside them. */
  lemma CopyKeepsRegion(m: Mem, g: Region, s: Region, o: nat, d: Option<seq<Byte>>)
    requires MemOk(m) && Holds(m, g) && Backed(m, g) && Holds(m, s) && CopyInto(m, s, o, d).Loaded?
    requires forall f: nat :: g.Owns(f) ==> !s.Owns(f)
    ensures KeptIn(m, CopyInto(m, s, o, d).mem, g)
  {
    var a := FRAME * s.base + o;
    CopyIntoIs(m, s, o, d.value, a);
    WrittenKeepsOther(m, g, s, a, d.value);
  }

  /** Loading a segment keeps every region whose pages it does not reuse. */
  lemma LoadKeepsRegion(m: Mem, root: nat, f: File, h: Phdr, n: nat, g: Region)
    requires MemOk(m) && Root(m.tables, root) && LoadSegment(m, root, f, h, n).Loaded?
    requires Holds(m, g) && Backed(m, g) && Separate(g, SegmentRegion(root, h, 0, n))
    ensures KeptIn(m, LoadSegment(m, root, f, h, n).mem, g)
  {
    var Done(m1, b) := Populate(m, root, h.vaddr, USER_FLAGS, n);
    LoadSegmentIs(m, root, f, h, n, m1, b);
    PopulateApart(m, root, h.vaddr, USER_FLAGS, n, m1, b, g);
    CopyKeepsRegion(m1, g, SegmentRegion(root, h, b, n), h.vaddr % FRAME, ReadFile(f, h.offset, h.filesz));
    KeptTransitive(m, m1, LoadSegment(m, root, f, h, n).mem, g);
  }

  /** Populate keeps a region on other pages, and takes none of its frames. */
  lemma PopulateApart(m: Mem, root: nat, va: nat, flags: nat, n: nat, m1: Mem, b: nat, g: Region)
    requires MemOk(m) && Root(m.tables, root) && flags < WORD && Populate(m, root, va, flags, n) == Done(m1, b)
    requires Holds(m, g) && Backed(m, g) && Separate(g, Region(root, va, 0, n))
    ensures KeptIn(m, m1, g) && forall f: nat :: g.Owns(f) ==> !Region(root, va, b, n).Owns(f)
  {
    assert Separate(g, Region(root, va, b, n));
    PopulateKeepsRegion(m, g, root, va, flags, n);
    PopulateHolds(m, root, va, flags, n);
    PopulateExtends(m, root, va, flags, n);
  }

  /** The generic ABI allows a segment with no file data, but the assertion on the read does not:
      with frames available, a good segment loads exactly when its file size is not a multiple
      of 2^32, zero included. */
  lemma GoodSegmentLoads(m: Mem, root: nat, f: File, h: Phdr)
    requires MemOk(m) && Root(m.tables, root) && GoodSegment(f, h)
    requires Populate(m, root, h.vaddr, USER_FLAGS, h.pages).Done?
    ensures LoadSegment(m, root, f, h, h.pages).Loaded? <==> !IntZero(h.filesz)
    ensures LoadSegment(m, root, f, h, h.pages) != Overrun
  {
    var Done(m1, b) := Populate(m, root, h.vaddr, USER_FLAGS, h.pages);
    LoadedSegment(m, root, f, h, m1, b);
  }

  // ----- The whole file -----

  datatype Header = Got(phdr: Phdr) | Missing | Torn

  /** The i-th program header as read from the file: Missing when the read returns nothing,
      Torn when only part of it, or memory past the file, would be read. */
  function HeaderAt(f: File, i: nat): Header
    requires |f| >= EHDR_SIZE
  {
    var o := (Field(f, 32, 8) + i * Field(f, 54, 2)) % WORD;
    if o == |f| then Missing
    else if o + PHDR_SIZE <= |f| then Got(ParsePhdr(f, o))
    else Torn
  }

  /** All e_phnum program headers. */
  function Headers(f: File): (hs: seq<Header>)
    requires |f| >= EHDR_SIZE
    ensures |hs| == Field(f, 56, 2) && forall i :: 0 <= i < |hs| ==> hs[i] == HeaderAt(f, i)
  {
    seq(Field(f, 56, 2), i requires 0 <= i => HeaderAt(f, i))
  }

  /** The loop's state: memory, *aux and *ld_path. */
  datatype Progress =
    | Going(mem: Mem, aux: Aux, interp: Option<seq<Byte>>)
    | Stopped(why: Load)

  ghost predicate ProgressOk(p: Progress, root: nat)
  {
    p.Going? ==> MemOk(p.mem) && Root(p.mem.tables, root)
  }

  /** The switch on the header's type. */
  function Visit(p: Progress, root: nat, f: File, h: Phdr): (r: Progress)
    requires p.Going? && ProgressOk(p, root)
    ensures ProgressOk(r, root)
  {
    if h.kind == PT_LOAD then
      var r := LoadSegment(p.mem, root, f, h, h.pages);
      if r.Loaded? then p.(mem := r.mem) else Stopped(r)
    else if h.kind == PT_INTERP then
      var d := ReadFile(f, h.offset, h.filesz);
      if d.None? then Stopped(Overrun)
      else if IntZero(|d.value|) then Stopped(Halt)
      else p.(interp := d)
    else if h.kind == PT_PHDR then p.(aux := p.aux.(phdr := h.vaddr))
    else p
  }

  /** The loop over the program headers. */
  function LoadAll(p: Progress, root: nat, f: File, hs: seq<Header>): (r: Progress)
    requires ProgressOk(p, root)
    ensures ProgressOk(r, root)
    decreases |hs|
  {
    if p.Stopped? || hs == [] then p
    else
      match hs[0]
      case Missing => Stopped(Rejected)
      case Torn => Stopped(Overrun)
      case Got(h) => LoadAll(Visit(p, root, f, h), root, f, hs[1..])
  }

  /** What a successful call adds to *aux at its end. */
  function Finished(p: Progress, f: File): Progress
    requires |f| >= EHDR_SIZE
  {
    if p.Stopped? then p
    else p.(aux := Aux(Field(f, 24, 8), p.aux.phdr, Field(f, 54, 2), Field(f, 56, 2)))
  }

  /** elf_load; aux is what *aux holds before the call. */
  function ElfLoad(m: Mem, root: nat, f: File, aux: Aux): (r: Progress)
    requires MemOk(m) && Root(m.tables, root)
    ensures ProgressOk(r, root)
  {
    if f == [] then Stopped(Rejected)
    else if |f| < EHDR_SIZE then Stopped(Overrun)
    else if !CheckHeaders(f) then Stopped(Rejected)
    else Finished(LoadAll(Going(m, aux, None), root, f, Headers(f)), f)
  }

  predicate IsLoad(x: Header) { x.Got? && x.phdr.kind == PT_LOAD }

  function LoadRegion(root: nat, x: Header): Region
    requires IsLoad(x)
  {
    SegmentRegion(root, x.phdr, 0, x.phdr.pages)
  }

  /** Region g shares no page with the loadable segments of hs. */
  ghost predicate Clear(g: Region, root: nat, hs: seq<Header>)
  {
    forall j :: 0 <= j < |hs| && IsLoad(hs[j]) ==> Separate(g, LoadRegion(root, hs[j]))
  }

  lemma VisitKeeps(p: Progress, root: nat, f: File, h: Phdr, g: Region)
    requires p.Going? && ProgressOk(p, root) && Visit(p, root, f, h).Going?
    requires Holds(p.mem, g) && Backed(p.mem, g)
    requires h.kind == PT_LOAD ==> Separate(g, SegmentRegion(root, h, 0, h.pages))
    ensures KeptIn(p.mem, Visit(p, root, f, h).mem, g)
  {
    if h.kind == PT_LOAD {
      LoadKeepsRegion(p.mem, root, f, h, h.pages, g);
    }
  }

  /** Loading keeps every region that no loadable segment touches. */
  lemma {:induction false} LoadAllKeeps(p: Progress, root: nat, f: File, hs: seq<Header>, g: Region)
    requires p.Going? && ProgressOk(p, root) && LoadAll(p, root, f, hs).Going?
    requires Holds(p.mem, g) && Backed(p.mem, g) && Clear(g, root, hs)
    ensures KeptIn(p.mem, LoadAll(p, root, f, hs).mem, g)
    decreases |hs|
  {
    if hs != [] {
      var h := hs[0].phdr;
      var p1 := Visit(p, root, f, h);
      assert IsLoad(hs[0]) == (h.kind == PT_LOAD);
      VisitKeeps(p, root, f, h, g);
      LoadAllKeeps(p1, root, f, hs[1..], g);
      KeptTransitive(p.mem, p1.mem, LoadAll(p, root, f, hs).mem, g);
    }
  }

  lemma SegmentKept(m: Mem, m': Mem, root: nat, f: File, h: Phdr, b: nat, n: nat)
    requires SegmentIn(m, root, f, h, b, n) && KeptIn(m, m', SegmentRegion(root, h, b, n))
    ensures SegmentIn(m', root, f, h, b, n)
  {
  }

  /** Which pages a region has does not depend on its frames. */
  lemma ClearAnyFrames(g: Region, g': Region, root: nat, hs: seq<Header>)
    requires g' == g.(base := g'.base) && Clear(g, root, hs)
    ensures Clear(g', root, hs)
  {
    forall j | 0 <= j < |hs| && IsLoad(hs[j]) ensures Separate(g', LoadRegion(root, hs[j])) {
      assert Separate(g, LoadRegion(root, hs[j]));
    }
  }

  /** A segment, right after its header is visited, is in memory. */
  lemma VisitLoads(p: Progress, root: nat, f: File, h: Phdr) returns (b: nat)
    requires p.Going? && ProgressOk(p, root) && Visit(p, root, f, h).Going?
    requires h.kind == PT_LOAD && GoodSegment(f, h)
    ensures SegmentIn(Visit(p, root, f, h).mem, root, f, h, b, h.pages)
  {
    var Done(m1, at) := Populate(p.mem, root, h.vaddr, USER_FLAGS, h.pages);
    LoadedSegment(p.mem, root, f, h, m1, at);
    b := at;
  }

  lemma FirstHeld(p: Progress, root: nat, f: File, h: Phdr, rest: seq<Header>) returns (b: nat)
    requires p.Going? && ProgressOk(p, root) && h.kind == PT_LOAD && GoodSegment(f, h)
    requires LoadAll(Visit(p, root, f, h), root, f, rest).Going?
    requires Clear(SegmentRegion(root, h, 0, h.pages), root, rest)
    ensures SegmentIn(LoadAll(Visit(p, root, f, h), root, f, rest).mem, root, f, h, b, h.pages)
  {
    var p1 := Visit(p, root, f, h);
    b := VisitLoads(p, root, f, h);
    var g := SegmentRegion(root, h, b, h.pages);
    ClearAnyFrames(SegmentRegion(root, h, 0, h.pages), g, root, rest);
    LoadAllKeeps(p1, root, f, rest, g);
    SegmentKept(p1.mem, LoadAll(p1, root, f, rest).mem, root, f, h, b, h.pages);
  }

  /** Every loadable segment that later segments do not touch is in its frames at the end. */
  lemma {:induction false} SegmentHeld(p: Progress, root: nat, f: File, hs: seq<Header>, j: nat) returns (b: nat)
    requires p.Going? && ProgressOk(p, root) && LoadAll(p, root, f, hs).Going?
    requires j < |hs| && IsLoad(hs[j]) && GoodSegment(f, hs[j].phdr)
    requires Clear(LoadRegion(root, hs[j]), root, hs[j + 1..])
    ensures SegmentIn(LoadAll(p, root, f, hs).mem, root, f, hs[j].phdr, b, hs[j].phdr.pages)
    decreases |hs|
  {
    var h := hs[0].phdr;
    if j == 0 {
      b := FirstHeld(p, root, f, h, hs[1..]);
    } else {
      assert hs[1..][j - 1] == hs[j] && hs[1..][j..] == hs[j + 1..];
      b := SegmentHeld(Visit(p, root, f, h), root, f, hs[1..], j - 1);
    }
  }

  /** Every loadable segment that later segments do not touch is read back exactly: its file
      bytes, then zeros up to its memory size. */
  lemma {:induction false} SegmentSurvives(p: Progress, root: nat, f: File, hs: seq<Header>, j: nat)
    requires p.Going? && ProgressOk(p, root) && LoadAll(p, root, f, hs).Going?
    requires j < |hs| && IsLoad(hs[j]) && GoodSegment(f, hs[j].phdr)
    requires Clear(LoadRegion(root, hs[j]), root, hs[j + 1..])
    ensures ImageAt(LoadAll(p, root, f, hs).mem, root, f, hs[j].phdr)
  {
    var b := SegmentHeld(p, root, f, hs, j);
    SegmentReads(LoadAll(p, root, f, hs).mem, root, f, hs[j].phdr, b, hs[j].phdr.pages);
  }

  /** Loadable segments occupy pairwise different pages. */
  ghost predicate PagesApart(root: nat, hs: seq<Header>)
  {
    forall i :: 0 <= i < |hs| && IsLoad(hs[i]) ==> Clear(LoadRegion(root, hs[i]), root, hs[i + 1..])
  }

  /** Loading preserves the image: after a successful elf_load the new program reads, at every
      address of every loadable segment, the byte the file prescribes. */
  lemma LoadedImage(m: Mem, root: nat, f: File, aux: Aux, j: nat)
    requires MemOk(m) && Root(m.tables, root) && ElfLoad(m, root, f, aux).Going?
    requires j < |Headers(f)| && IsLoad(Headers(f)[j]) && GoodSegment(f, Headers(f)[j].phdr)
    requires PagesApart(root, Headers(f))
    ensures ImageAt(ElfLoad(m, root, f, aux).mem, root, f, Headers(f)[j].phdr)
  {
    SegmentSurvives(Going(m, aux, None), root, f, Headers(f), j);
  }

  /** Loading a program changes nothing another program can see in memory it already had. */
  lemma LoadLeavesOthers(m: Mem, root: nat, f: File, aux: Aux, g: Region)
    requires MemOk(m) && Root(m.tables, root) && ElfLoad(m, root, f, aux).Going?
    requires Holds(m, g) && Backed(m, g) && Clear(g, root, Headers(f))
    ensures KeptIn(m, ElfLoad(m, root, f, aux).mem, g)
  {
    LoadAllKeeps(Going(m, aux, None), root, f, Headers(f), g);
  }

  // ----- What the program is told about its image -----

  /** The address of the last PT_PHDR header, or what was there before. */
  function PhdrAddress(hs: seq<Header>, was: nat): nat
    decreases |hs|
  {
    if hs == [] then was
    else
      var x := hs[|hs| - 1];
      if x.Got? && x.phdr.kind == PT_PHDR then x.phdr.vaddr else PhdrAddress(hs[..|hs| - 1], was)
  }

  lemma {:induction false} PhdrFirst(x: Header, hs: seq<Header>, was: nat)
    ensures PhdrAddress([x] + hs, was) == PhdrAddress(hs, PhdrAddress([x], was))
    decreases |hs|
  {
    var all, n := [x] + hs, |hs|;
    if n == 0 { assert all == [x]; }
    else {
      assert all[n] == hs[n - 1] && all[..n] == [x] + hs[..n - 1];
      PhdrFirst(x, hs[..n - 1], was);
    }
  }

  lemma VisitPhdr(p: Progress, root: nat, f: File, h: Phdr)
    requires p.Going? && ProgressOk(p, root) && Visit(p, root, f, h).Going?
    ensures Visit(p, root, f, h).aux.phdr == if h.kind == PT_PHDR then h.vaddr else p.aux.phdr
  {
  }

  lemma {:induction false} LoadAllPhdr(p: Progress, root: nat, f: File, hs: seq<Header>)
    requires p.Going? && ProgressOk(p, root) && LoadAll(p, root, f, hs).Going?
    ensures LoadAll(p, root, f, hs).aux.phdr == PhdrAddress(hs, p.aux.phdr)
    decreases |hs|
  {
    if hs != [] {
      LoadAllFirst(p, root, f, hs[0], hs[1..], hs);
      var p1 := Visit(p, root, f, hs[0].phdr);
      LoadAllPhdr(p1, root, f, hs[1..]);
      VisitPhdr(p, root, f, hs[0].phdr);
      PhdrOne(hs[0], p.aux.phdr);
      assert hs == [hs[0]] + hs[1..];
      PhdrFirst(hs[0], hs[1..], p.aux.phdr);
    }
  }

  lemma PhdrOne(x: Header, was: nat)
    ensures PhdrAddress([x], was) == if x.Got? && x.phdr.kind == PT_PHDR then x.phdr.vaddr else was
  {
    assert [x][..0] == [];
  }

  /** Loading went on past the first header. */
  lemma {:induction false} LoadAllFirst(p: Progress, root: nat, f: File, x: Header, rest: seq<Header>, hs: seq<Header>)
    requires p.Going? && ProgressOk(p, root) && hs != [] && x == hs[0] && rest == hs[1..]
    requires LoadAll(p, root, f, hs).Going?
    ensures x.Got? && Visit(p, root, f, x.phdr).Going?
    ensures LoadAll(p, root, f, hs) == LoadAll(Visit(p, root, f, x.phdr), root, f, rest)
  {
    match x
    case Missing =>
    case Torn =>
    case Got(h) =>
  }

  lemma FieldBound(f: File, o: nat, n: nat)
    requires o + n <= |f| && n <= 8
    ensures Field(f, o, n) < WORD
  {
    WordBound();
    PowerGrows(n, 8);
  }

  lemma {:induction false} PowerGrows(j: nat, k: nat)
    requires j <= k
    ensures Power256(j) <= Power256(k)
    decreases k
  {
    if j < k { PowerGrows(j, k - 1); }
  }

  /** All of aux after a successful elf_load: entry point, header size and count from the ELF header, and
      the address of the last PT_PHDR header. */
  lemma LoadedAux(m: Mem, root: nat, f: File, aux: Aux)
    requires MemOk(m) && Root(m.tables, root) && |f| >= EHDR_SIZE && ElfLoad(m, root, f, aux).Going?
    ensures ElfLoad(m, root, f, aux).aux ==
            Aux(Field(f, 24, 8), PhdrAddress(Headers(f), aux.phdr), Field(f, 54, 2), Field(f, 56, 2))
  {
    LoadAllPhdr(Going(m, aux, None), root, f, Headers(f));
  }
}
