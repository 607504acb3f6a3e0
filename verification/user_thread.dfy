/** The first thread of a user process: sched_user_thread of src/proc/sched.c maps a stack and
    fills it through the kernel's alias; the program reads it through its page tables. */
module UserThread {
  import opened Words
  import opened PhysicalMemory
  import opened FrameAllocator
  import opened RadixTree
  import opened PageTables
  import opened AddressSpaces
  import opened Regions
  import opened InitialStack

  /** Allocate n zeroed frames and map them from va on. One page more is mapped than there are
      frames. None is a failed assertion. */
  function MapStack(m: Mem, root: nat, va: nat, n: nat): (r: Option<(Mem, nat)>)
    requires MemOk(m) && Root(m.tables, root)
    ensures r.Some? ==> MemOk(r.value.0)
  {
    CallocOk(m, n);
    var (m1, b) := Calloc(m, n);
    if b.None? then None
    else
      match MapPages(m1, root, FRAME * b.value, va, USER_FLAGS, n + 1)
      case None => None
      case Some(m2) => Some((m2, b.value))
  }

  lemma MapStackHolds(m: Mem, root: nat, va: nat, n: nat)
    requires MemOk(m) && Root(m.tables, root) && MapStack(m, root, va, n).Some?
    ensures
      var (m2, b) := MapStack(m, root, va, n).value;
      Holds(m2, Region(root, va, b, n)) && ZeroFilled(m2, Region(root, va, b, n))
  {
    CallocOk(m, n);
    var (m1, r) := Calloc(m, n);
    var g := Region(root, va, r.value, n);
    CallocHolds(m, n, g, m1);
    HoldsKept(m1, MapStack(m, root, va, n).value.0, g);
  }

  lemma CallocHolds(m: Mem, n: nat, g: Region, m1: Mem)
    requires MemOk(m) && Calloc(m, n) == (m1, Some(g.base)) && g.pages == n && Root(m.tables, g.root)
    ensures Holds(m1, g) && ZeroFilled(m1, g)
  {
    assert Fits(m.used, m.limit, g.base, n);
  }

  /** Every page of the stack and, when there is a frame number for it, the page above. */
  lemma {:induction false} MapStackBacks(m: Mem, root: nat, va: nat, n: nat, m2: Mem, b: nat, k: nat)
    requires MemOk(m) && Root(m.tables, root) && MapStack(m, root, va, n) == Some((m2, b)) && n < 0x10_0000_0000
    requires k < n || (k == n && m.limit < 0x100_0000_0000)
    ensures Backs(m2, Region(root, va, b, n), k)
  {
    CallocOk(m, n);
    var m1 := Calloc(m, n).0;
    assert Fits(m.used, m.limit, b, n);
    UserFlagsPlain();
    MappedFrame(m1, root, b, va, USER_FLAGS, n + 1, k, m2);
  }

  lemma MapStackBacked(m: Mem, root: nat, va: nat, n: nat, m2: Mem, b: nat)
    requires MemOk(m) && Root(m.tables, root) && MapStack(m, root, va, n) == Some((m2, b)) && n < 0x10_0000_0000
    ensures Backed(m2, Region(root, va, b, n))
  {
    forall k: nat | k < n ensures Backs(m2, Region(root, va, b, n), k) {
      MapStackBacks(m, root, va, n, m2, b, k);
    }
  }

  /** The page above the stack is mapped as well, to the frame after the stack's frames. This call did not
      allocate that frame: it is in use afterwards exactly if somebody else had it before. */
  lemma ExtraPage(m: Mem, root: nat, va: nat, n: nat, m2: Mem, b: nat)
    requires MemOk(m) && Root(m.tables, root) && MapStack(m, root, va, n) == Some((m2, b)) && n < 0x10_0000_0000
    requires m.limit < 0x100_0000_0000
    ensures
      var e := EntryFor(m2, root, Plus(va, n));
      Present(e) && FrameOf(e) == b + n && FrameOf(e) !in Run(b, n)
      && (FrameOf(e) in Calloc(m, n).0.used <==> FrameOf(e) in m.used)
  {
    MapStackBacks(m, root, va, n, m2, b, n);
  }

  /** The stack with its first contents d. */
  function FillStack(m: Mem, root: nat, va: nat, n: nat, d: Ram): (r: Option<Mem>)
    requires MemOk(m) && Root(m.tables, root) && |d| == FRAME * n
    ensures r.Some? ==> MemOk(r.value)
  {
    if MapStack(m, root, va, n).None? then None
    else
      var (m2, b) := MapStack(m, root, va, n).value;
      MapStackHolds(m, root, va, n);
      StackOk(m2, Region(root, va, b, n), d);
      Some(Written(m2, FRAME * b, d))
  }

  lemma StackOk(m: Mem, g: Region, d: Ram)
    requires MemOk(m) && Holds(m, g) && |d| <= FRAME * g.pages
    ensures DataOnly(m, FRAME * g.base, |d|) && MemOk(Written(m, FRAME * g.base, d))
  {
    RegionIsData(m, g, FRAME * g.base, |d|);
    WrittenOk(m, FRAME * g.base, d);
  }

  /** The program's memory, through its page tables. */
  function SpaceOf(m: Mem, root: nat): Space { v => ByteAt(m, root, v) }

  lemma AgreesThere(m: Mem, root: nat, d: Ram, va: nat, k: nat, v: nat)
    requires k < |d| && v == va + k && ByteAt(m, root, v) == Some(d[k])
    ensures AgreesAt(SpaceOf(m, root), d, va, k)
  {
  }

  lemma RegionAgreesAt(m: Mem, g: Region, d: Ram, k: nat, v: nat, a: nat)
    requires Holds(m, g) && Backed(m, g) && g.va % FRAME == 0 && |d| == FRAME * g.pages && k < |d|
    requires v == g.va + k && a == FRAME * g.base + k && (a < |m.ram| ==> m.ram[a] == d[k])
    ensures AgreesAt(SpaceOf(m, g.root), d, g.va, k)
  {
    RegionByteIs(m, g, g.root, k, v, a, d[k]);
    AgreesThere(m, g.root, d, g.va, k, v);
  }

  lemma RegionAgrees(m: Mem, g: Region, d: Ram)
    requires Holds(m, g) && Backed(m, g) && g.va % FRAME == 0 && |d| == FRAME * g.pages && g.va + |d| <= WORD
    requires forall k :: 0 <= k < |d| && FRAME * g.base + k < |m.ram| ==> m.ram[FRAME * g.base + k] == d[k]
    ensures Agrees(SpaceOf(m, g.root), d, g.va)
  {
    forall k: nat | k < |d| ensures AgreesAt(SpaceOf(m, g.root), d, g.va, k) {
      RegionAgreesAt(m, g, d, k, g.va + k, FRAME * g.base + k);
    }
  }

  lemma FilledRegion(m2: Mem, g: Region, d: Ram, m3: Mem)
    requires MemOk(m2) && Holds(m2, g) && Backed(m2, g) && g.va % FRAME == 0
    requires |d| == FRAME * g.pages && g.va + |d| <= WORD && FRAME * g.base + |d| <= |m2.ram|
    requires m3 == Written(m2, FRAME * g.base, d)
    ensures Agrees(SpaceOf(m3, g.root), d, g.va)
  {
    StackOk(m2, g, d);
    WrittenKeepsRegion(m2, g, FRAME * g.base, d);
    RegionAgrees(m3, g, d);
  }

  /** Contents d fill n frames at the frame-aligned address va. */
  predicate Placed(d: Ram, va: nat, n: nat)
  {
    |d| == FRAME * n && n < 0x10_0000_0000 && va % FRAME == 0 && va + |d| <= WORD
  }

  /** What is written through the kernel's alias is what the program reads at its addresses. */
  lemma FillAgrees(m: Mem, root: nat, va: nat, n: nat, d: Ram, m3: Mem, rd: Space)
    requires MemOk(m) && Root(m.tables, root) && Placed(d, va, n)
    requires FillStack(m, root, va, n, d) == Some(m3) && rd == SpaceOf(m3, root)
    ensures Agrees(rd, d, va)
  {
    var (m2, b) := MapStack(m, root, va, n).value;
    MapStackHolds(m, root, va, n);
    MapStackBacked(m, root, va, n, m2, b);
    FilledRegion(m2, Region(root, va, b, n), d, m3);
  }

  /** The new program, reading through its own page tables from its initial stack pointer,
      finds exactly its arguments, environment and auxiliary vector. */
  lemma {:induction false} ProgramStarts(m: Mem, root: nat, top: nat, lo: nat, n: nat, argv: seq<Text>,
                                         envp: seq<Text>, a: Aux,
                                         d: Ram, m3: Mem, rd: Space, rw: WordSpace, rsp: nat)
    requires MemOk(m) && Root(m.tables, root) && TopOk(top) && lo == top - STACK_SIZE && Placed(d, lo, n)
    requires StackFits(argv, envp) && AuxOk(a) && CStrings(argv) && CStrings(envp)
    requires rsp == StackPointer(argv, envp, top) && d == Built(argv, envp, a, top)
    requires FillStack(m, root, lo, n, d) == Some(m3) && rd == SpaceOf(m3, root) && Loads(rd, rw)
    ensures ReadStartup(rd, rw, rsp) == Some(Startup(argv, envp, AuxPairs(a)))
  {
    FillAgrees(m, root, lo, n, d, m3, rd);
    StartupRoundTrip(rd, rw, argv, envp, a, top, rsp, d, lo);
  }

  /** The kernel's own stacks are so placed: 16 frames below the stack top of sched_process. */
  lemma {:induction false} KernelPlacement(d: Ram)
    requires |d| == STACK_SIZE
    ensures Placed(d, 0x700_0000_0000 - STACK_SIZE, 16) && TopOk(0x700_0000_0000)
  {
  }
}
