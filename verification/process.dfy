/** A process's memory in place: syscall_mmap and elf_load over the page tables of one page map. An ok
    result of false is a failed assertion, which halts the kernel. */
module ProcessMemory {
  import opened Words
  import opened PhysicalMemory
  import opened FrameAllocator
  import opened RadixTree
  import opened VirtualMemoryManager
  import PT = PageTables
  import AS = AddressSpaces
  import RG = Regions
  import AM = AnonymousMemory
  import EL = ElfLoader

  class Process {
    const vmm: Vmm
    const root: nat
    var anonBase: nat

    ghost predicate Valid()
      reads this, vmm, vmm.pmm, vmm.pmm.bitmap
    {
      vmm.Valid() && Root(vmm.tables, root)
    }

    constructor (v: Vmm, r: nat)
      requires v.Valid() && Root(v.tables, r)
      ensures Valid() && vmm == v && root == r && anonBase == 0x800_0000_0000
    {
      vmm, root, anonBase := v, r, 0x800_0000_0000;
    }

    /** Zeroed frames mapped at va: pmm_calloc followed by vmm_map_pages. */
    method PopulateRange(va: nat, flags: nat, n: nat) returns (ok: bool, base: Option<nat>)
      requires Valid() && flags < WORD
      modifies vmm, vmm.pmm.bitmap
      ensures
        match RG.Populate(old(vmm.Abs()), root, va, flags, n)
        case Done(m, b) => ok && base == Some(b) && vmm.Abs() == m && vmm.Valid()
        case NoFrames(m) => ok && base == None && vmm.Abs() == m
        case Halted => !ok
    {
      PT.CallocOk(vmm.Abs(), n);
      base := vmm.Calloc(n);
      if base.None? { return true, None; }
      ok := vmm.MapPages(root, FRAME * base.value, va, flags, n);
    }

    method Mmap(hint: nat, length: nat, prot: nat, anon: bool, fixed: bool) returns (ok: bool, r: Option<nat>)
      requires Valid() && prot < WORD
      modifies this`anonBase, vmm, vmm.pmm.bitmap
      ensures
        match AM.Mmap(old(vmm.Abs()), root, old(anonBase), hint, length, prot, anon, fixed)
        case Mapped(m, next, virt, _) => ok && r == Some(virt) && vmm.Abs() == m && vmm.Valid() && anonBase == next
        case Failed(m, next) => ok && r == None && vmm.Abs() == m && anonBase == next
        case Panic => !ok
    {
      if !anon { return true, None; }
      var virt: nat;
      var pages := (length + FRAME - 1) % WORD / FRAME;
      if fixed {
        if hint > AM.USER_SPACE_END || length == 0 || hint == 0 { return true, None; }
        virt := hint;
      } else {
        virt := anonBase;
        anonBase := AS.Plus(anonBase, pages);
      }
      AS.EntryWord(prot, 7);
      var base;
      ok, base := PopulateRange(virt, BitOr(prot, 7), pages);
      r := if base.Some? then Some(virt) else None;
    }

    /** The PT_LOAD case of elf_load: frames for the segment, mapped at its address, and the file's bytes
        copied in through the kernel's alias. */
    method LoadSegment(f: EL.File, h: EL.Phdr) returns (end: End)
      requires Valid()
      modifies vmm, vmm.pmm.bitmap
      ensures
        match EL.LoadSegment(old(vmm.Abs()), root, f, h, h.pages)
        case Loaded(m) => end == Fine && vmm.Abs() == m && Valid()
        case Rejected => end == Refused
        case Halt => end == Stopped
        case Overrun => end == OutOfBounds
    {
      ghost var m := vmm.Abs();
      var ok, base := PopulateRange(h.vaddr, RG.USER_FLAGS, h.pages);
      if !ok { return Stopped; }
      if base.None? { return Refused; }
      RG.PopulateHolds(m, root, h.vaddr, RG.USER_FLAGS, h.pages);
      ghost var g := RG.Region(root, h.vaddr, base.value, h.pages);
      end := CopyInto(base.value, h.pages, h.vaddr % FRAME, EL.ReadFile(f, h.offset, h.filesz), g);
    }

    /** File bytes d into the frames of region g, o bytes in. */
    method CopyInto(base: nat, pages: nat, o: nat, d: Option<seq<Byte>>, ghost g: RG.Region) returns (end: End)
      requires vmm.Valid() && RG.Holds(vmm.Abs(), g) && g.base == base && g.pages == pages
      modifies vmm`ram
      ensures
        match EL.CopyInto(old(vmm.Abs()), g, o, d)
        case Loaded(m) => end == Fine && vmm.Abs() == m && vmm.Valid()
        case Rejected => false
        case Halt => end == Stopped
        case Overrun => end == OutOfBounds
    {
      if d.None? || o + |d.value| > FRAME * pages { return OutOfBounds; }
      if EL.IntZero(|d.value|) { return Stopped; }
      EL.CopyOk(vmm.Abs(), g, o, d.value);
      vmm.ram := Blit(vmm.ram, FRAME * base + o, d.value);
      return Fine;
    }

    /** The switch on a program header's type. */
    method VisitHeader(f: EL.File, h: EL.Phdr, aux: Aux, interp: Option<seq<Byte>>) returns (end: End, aux': Aux,
                       interp': Option<seq<Byte>>)
      requires Valid()
      modifies vmm, vmm.pmm.bitmap
      ensures Ended(EL.Visit(EL.Going(old(vmm.Abs()), aux, interp), root, f, h), end, vmm.Abs(), aux', interp')
      ensures end == Fine ==> Valid()
    {
      end, aux', interp' := Fine, aux, interp;
      if h.kind == EL.PT_LOAD {
        end := LoadSegment(f, h);
      } else if h.kind == EL.PT_INTERP {
        var d := EL.ReadFile(f, h.offset, h.filesz);
        if d.None? { end := OutOfBounds; }
        else if EL.IntZero(|d.value|) { end := Stopped; }
        else { interp' := d; }
      } else if h.kind == EL.PT_PHDR {
        aux' := aux.(phdr := h.vaddr);
      }
    }

    /** elf_load; aux0 is what *aux holds before the call. */
    method ElfLoad(f: EL.File, aux0: Aux) returns (end: End, aux: Aux, interp: Option<seq<Byte>>)
      requires Valid()
      modifies vmm, vmm.pmm.bitmap
      ensures Ended(EL.ElfLoad(old(vmm.Abs()), root, f, aux0), end, vmm.Abs(), aux, interp)
      ensures end == Fine ==> Valid()
    {
      end, aux, interp := Fine, aux0, None;
      if f == [] { return Refused, aux, interp; }
      if |f| < EL.EHDR_SIZE { return OutOfBounds, aux, interp; }
      if !EL.CheckHeaders(f) { return Refused, aux, interp; }
      end, aux, interp := LoadHeaders(f, aux0);
      if end == Fine { aux := Aux(EL.Field(f, 24, 8), aux.phdr, EL.Field(f, 54, 2), EL.Field(f, 56, 2)); }
    }

    /** The loop over the program headers. */
    method LoadHeaders(f: EL.File, aux0: Aux) returns (end: End, aux: Aux, interp: Option<seq<Byte>>)
      requires Valid() && |f| >= EL.EHDR_SIZE
      modifies vmm, vmm.pmm.bitmap
      ensures Ended(EL.LoadAll(EL.Going(old(vmm.Abs()), aux0, None), root, f, EL.Headers(f)),
                    end, vmm.Abs(), aux, interp)
      ensures end == Fine ==> Valid()
    {
      end, aux, interp := Fine, aux0, None;
      ghost var hs := EL.Headers(f);
      ghost var want := EL.LoadAll(EL.Going(vmm.Abs(), aux0, None), root, f, hs);
      assert hs[0..] == hs;
      for i := 0 to EL.Field(f, 56, 2)
        invariant Valid() && end == Fine && want == EL.LoadAll(EL.Going(vmm.Abs(), aux, interp), root, f, hs[i..])
      {
        end, aux, interp := LoadHeader(f, i, aux, interp, hs, want);
        if end != Fine { return; }
      }
      LoadAllDone(EL.Going(vmm.Abs(), aux, interp), root, f, hs[|hs|..]);
    }

    /** One turn: the i-th program header. */
    method LoadHeader(f: EL.File, i: nat, aux: Aux, interp: Option<seq<Byte>>, ghost hs: seq<EL.Header>,
                      ghost want: EL.Progress)
      returns (end: End, aux': Aux, interp': Option<seq<Byte>>)
      requires Valid() && |f| >= EL.EHDR_SIZE && i < |hs| && hs[i] == EL.HeaderAt(f, i)
      requires want == EL.LoadAll(EL.Going(vmm.Abs(), aux, interp), root, f, hs[i..])
      modifies vmm, vmm.pmm.bitmap
      ensures end == Fine ==> Valid() && want == EL.LoadAll(EL.Going(vmm.Abs(), aux', interp'), root, f, hs[i + 1..])
      ensures end != Fine ==> Ended(want, end, vmm.Abs(), aux', interp')
    {
      LoadAllStep(EL.Going(vmm.Abs(), aux, interp), root, f, hs, i);
      var header := EL.HeaderAt(f, i);
      if header.Missing? { return Refused, aux, interp; }
      if header.Torn? { return OutOfBounds, aux, interp; }
      end, aux', interp' := VisitHeader(f, header.phdr, aux, interp);
    }
  }

  lemma LoadAllDone(p: EL.Progress, root: nat, f: EL.File, hs: seq<EL.Header>)
    requires EL.ProgressOk(p, root) && hs == []
    ensures EL.LoadAll(p, root, f, hs) == p
  {
  }

  /** One turn of the loop over the headers. */
  lemma {:induction false} LoadAllStep(p: EL.Progress, root: nat, f: EL.File, hs: seq<EL.Header>, i: nat)
    requires p.Going? && EL.ProgressOk(p, root) && i < |hs|
    ensures
      var r := EL.LoadAll(p, root, f, hs[i..]);
      match hs[i]
      case Missing => r == EL.Stopped(EL.Rejected)
      case Torn => r == EL.Stopped(EL.Overrun)
      case Got(h) =>
        var q := EL.Visit(p, root, f, h);
        r == if q.Stopped? then q else EL.LoadAll(q, root, f, hs[i + 1..])
  {
    assert hs[i..][0] == hs[i] && hs[i..][1..] == hs[i + 1..];
  }

  /** How loading ended: refused, stopped on an assertion, or with a copy outside its buffer. */
  datatype End = Fine | Refused | Stopped | OutOfBounds

  function EndOf(why: EL.Load): End
  {
    match why
    case Halt => Stopped
    case Overrun => OutOfBounds
    case Rejected => Refused
    case Loaded(_) => Fine
  }

  /** The outcome of the specification and what the method left behind agree. */
  ghost predicate Ended(p: EL.Progress, end: End, m: PT.Mem, aux: Aux, interp: Option<seq<Byte>>)
  {
    match p
    case Going(m', aux', interp') => end == Fine && m == m' && aux == aux' && interp == interp'
    case Stopped(why) => end == EndOf(why)
  }
}
