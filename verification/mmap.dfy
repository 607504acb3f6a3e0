/** Anonymous memory: syscall_mmap of src/sys/syscalls/syscalls.c, and what processes see of
    it over whole runs. */
module AnonymousMemory {
  import opened Words
  import opened PhysicalMemory
  import opened FrameAllocator
  import opened RadixTree
  import opened PageTables
  import opened AddressSpaces
  import opened Regions

  const USER_SPACE_END := 0x7FFF_FFFF_FFFF
  const LOWER_END := 0x8000_0000_0000

  /** The outcome of the call and the process's next anonymous address. */
  datatype Reply =
    | Mapped(mem: Mem, next: nat, virt: nat, base: nat)
    | Failed(mem: Mem, next: nat)
    | Panic

  /** ALIGN_UP in 64-bit arithmetic, in frames. */
  function PageCount(length: nat): nat { (length + FRAME - 1) % WORD / FRAME }

  function EntryFlags(prot: nat): nat { BitOr(prot, 7) }

  /** The part of syscall_mmap after its argument checks: n pages at virt. */
  function MmapPages(m: Mem, root: nat, next: nat, virt: nat, n: nat, prot: nat): (r: Reply)
    requires MemOk(m) && Root(m.tables, root) && prot < WORD
    ensures r.Mapped? ==> MemOk(r.mem)
  {
    EntryWord(prot, 7);
    match Populate(m, root, virt, EntryFlags(prot), n)
    case Done(m', b) => Mapped(m', next, virt, b)
    case NoFrames(m') => Failed(m', next)
    case Halted => Panic
  }

  /** syscall_mmap; base is the process's anon_base. The address range is reserved before the
      frames are, so a failed call uses it up. */
  function Mmap(m: Mem, root: nat, base: nat, hint: nat, length: nat, prot: nat, anon: bool, fixed: bool): (r: Reply)
    requires MemOk(m) && Root(m.tables, root) && prot < WORD
    ensures r.Mapped? ==> MemOk(r.mem)
  {
    if !anon then Failed(m, base)
    else if fixed && (hint > USER_SPACE_END || length == 0 || hint == 0) then Failed(m, base)
    else if fixed then MmapPages(m, root, base, hint, PageCount(length), prot)
    else MmapPages(m, root, Plus(base, PageCount(length)), base, PageCount(length), prot)
  }

  /** A call that finds no frames clears memory from physical address 0 on; it leaves memory as
      it was exactly when that memory was already zero. */
  lemma FailureClears(m: Mem, root: nat, base: nat, length: nat, prot: nat)
    requires MemOk(m) && Root(m.tables, root) && prot < WORD
    requires FirstFit(m.used, m.limit, PageCount(length)).None?
    ensures
      var r := Mmap(m, root, base, 0, length, prot, true, false);
      var n := FRAME * Min(PageCount(length), |m.ram| / FRAME);
      && r.Failed? && r.next == Plus(base, PageCount(length))
      && (r.mem.ram == m.ram <==> forall a :: 0 <= a < n ==> m.ram[a] == 0)
  {
    EntryWord(prot, 7);
    var r := Mmap(m, root, base, 0, length, prot, true, false);
    var n := FRAME * Min(PageCount(length), |m.ram| / FRAME);
    if forall a :: 0 <= a < n ==> m.ram[a] == 0 {
      assert forall a :: 0 <= a < |m.ram| ==> r.mem.ram[a] == m.ram[a];
    } else {
      var a :| 0 <= a < n && m.ram[a] != 0;
      assert r.mem.ram[a] == 0;
    }
  }

  /** The entry flags are plain exactly when prot has no bit among the address bits. */
  lemma {:induction false} FlagsPlain(prot: nat)
    requires prot < WORD
    ensures PlainFlags(EntryFlags(prot)) <==> FrameOf(prot) == 0
  {
    var rwu := 7;
    EntryWord(prot, rwu);
    OrFrame(prot, rwu);
    OrZero(FrameOf(prot), FrameOf(rwu));
    OrOdd(prot, rwu);
  }

  // ----- Several processes -----

  /** The next anonymous address of each process, named by its page map, and the ranges
      granted so far. */
  datatype Sys = Sys(mem: Mem, bases: map<nat, nat>, grants: seq<Region>)

  /** A non-fixed anonymous call for some number of pages, or a store by a program. */
  datatype Event = Grow(root: nat, pages: nat, prot: nat) | Store(root: nat, va: nat, value: Byte)

  predicate Contains(g: Region, root: nat, va: nat)
  {
    g.root == root && g.va <= va < g.va + FRAME * g.pages
  }

  ghost predicate Granted(s: Sys, root: nat, va: nat)
  {
    exists i :: 0 <= i < |s.grants| && Contains(s.grants[i], root, va)
  }

  ghost predicate GrantOk(s: Sys, g: Region)
  {
    && g.root in s.bases && g.va % FRAME == 0 && g.va + FRAME * g.pages <= s.bases[g.root]
    && Holds(s.mem, g) && Backed(s.mem, g)
  }

  /** Ranges of one process do not overlap, and no frame backs two ranges. */
  ghost predicate Disjoint(g: Region, h: Region)
  {
    && (g.root == h.root ==> g.va + FRAME * g.pages <= h.va || h.va + FRAME * h.pages <= g.va)
    && (g.base + g.pages <= h.base || h.base + h.pages <= g.base || g.pages == 0 || h.pages == 0)
  }

  ghost predicate SysOk(s: Sys)
  {
    && MemOk(s.mem)
    && (forall r :: r in s.bases ==> Root(s.mem.tables, r) && s.bases[r] % FRAME == 0 && s.bases[r] <= LOWER_END)
    && (forall i :: 0 <= i < |s.grants| ==> GrantOk(s, s.grants[i]))
    && (forall i, j :: 0 <= i < j < |s.grants| ==> Disjoint(s.grants[i], s.grants[j]))
  }

  /** A call this development covers: by a process of the system, with protection bits outside
      the address field, frames available, and a range that stays in the lower half. */
  ghost predicate Covered(s: Sys, e: Event)
    requires SysOk(s)
  {
    match e
    case Grow(root, n, prot) =>
      && root in s.bases && prot < WORD && FrameOf(prot) == 0
      && s.bases[root] + FRAME * n <= LOWER_END
      && MmapPages(s.mem, root, Plus(s.bases[root], n), s.bases[root], n, prot).Mapped?
    case Store(root, va, value) => Granted(s, root, va)
  }

  ghost function Step(s: Sys, e: Event): Sys
    requires SysOk(s) && Covered(s, e)
  {
    match e
    case Grow(root, n, prot) =>
      var r := MmapPages(s.mem, root, Plus(s.bases[root], n), s.bases[root], n, prot);
      Sys(r.mem, s.bases[root := r.next], s.grants + [Region(root, r.virt, r.base, n)])
    case Store(root, va, value) =>
      StoreInRam(s, root, va);
      s.(mem := Written(s.mem, AddressOf(s.mem, root, va), [value]))
  }

  /** The physical address the hardware writes. */
  function AddressOf(m: Mem, root: nat, va: nat): nat { FRAME * FrameOf(EntryFor(m, root, va)) + va % FRAME }

  lemma GrantAddress(m: Mem, g: Region, va: nat)
    requires Holds(m, g) && Backed(m, g) && g.va % FRAME == 0 && Contains(g, g.root, va)
    ensures AddressOf(m, g.root, va) == FRAME * g.base + (va - g.va)
    ensures FRAME * g.base <= AddressOf(m, g.root, va) < FRAME * (g.base + g.pages) <= |m.ram|
    ensures ByteAt(m, g.root, va) == Some(m.ram[AddressOf(m, g.root, va)])
  {
    var j := va - g.va;
    var k := j / FRAME;
    assert va == g.va + j;
    ByteOffset(g.va, j, g.base, g.pages, k);
    BytePage(g.va, j);
    assert FRAME * (g.base + k) + va % FRAME == FRAME * g.base + j;
    PageFrame(m, g, k, Plus(g.va, k), va);
  }

  lemma PageFrame(m: Mem, g: Region, k: nat, p: nat, va: nat)
    requires Backed(m, g) && Holds(m, g) && k < g.pages && p == Plus(g.va, k) && Page(va) == Page(p)
    ensures AddressOf(m, g.root, va) == FRAME * (g.base + k) + va % FRAME < |m.ram|
    ensures ByteAt(m, g.root, va) == Some(m.ram[AddressOf(m, g.root, va)])
  {
    assert Backs(m, g, k);
    EntryForPage(m, g.root, va, p);
    PageByte(m, g, k, p, va);
  }

  lemma StoreInRam(s: Sys, root: nat, va: nat)
    requires SysOk(s) && Granted(s, root, va)
    ensures AddressOf(s.mem, root, va) < |s.mem.ram| && DataOnly(s.mem, AddressOf(s.mem, root, va), 1)
  {
    var i :| 0 <= i < |s.grants| && Contains(s.grants[i], root, va);
    GrantAddress(s.mem, s.grants[i], va);
    RegionIsData(s.mem, s.grants[i], AddressOf(s.mem, root, va), 1);
  }

  // ----- Every covered call keeps the system well formed -----

  lemma LowerAddress(va: nat, k: nat)
    requires va % FRAME == 0 && va + FRAME * k < LOWER_END
    ensures Page(Plus(va, k)) == va / FRAME + k && LowerHalf(Plus(va, k))
  {
    var v := va + FRAME * k;
    assert Plus(va, k) == v;
    assert v / FRAME == va / FRAME + k;
    assert v / 0x80_0000_0000 < 256;
  }

  /** Ranges in the lower half that do not overlap have no page in common. */
  lemma SeparateRanges(g: Region, h: Region)
    requires g.va % FRAME == 0 && h.va % FRAME == 0
    requires g.va + FRAME * g.pages <= LOWER_END && h.va + FRAME * h.pages <= LOWER_END
    requires g.root == h.root ==> g.va + FRAME * g.pages <= h.va
    ensures Separate(g, h)
  {
    forall j: nat, k: nat | j < g.pages && k < h.pages
      ensures Page(Plus(g.va, j)) != Page(Plus(h.va, k)) || (g.root != h.root && LowerHalf(Plus(h.va, k)))
    {
      LowerAddress(g.va, j);
      LowerAddress(h.va, k);
    }
  }

  /** s' is s with one more range h, zero-filled and backed by frames that were free. */
  ghost predicate Grew(s: Sys, s': Sys, h: Region)
  {
    && h.root in s.bases && h.va == s.bases[h.root] && h.va + FRAME * h.pages <= LOWER_END
    && s'.grants == s.grants + [h] && s'.bases == s.bases[h.root := h.va + FRAME * h.pages]
    && Fresh(s.mem, s'.mem, h)
  }

  ghost predicate AllKept(s: Sys, s': Sys)
  {
    forall i :: 0 <= i < |s.grants| ==> KeptIn(s.mem, s'.mem, s.grants[i])
  }

  lemma {:induction false} GrowKeepsGrant(s: Sys, root: nat, n: nat, prot: nat, i: nat)
    requires SysOk(s) && Covered(s, Grow(root, n, prot)) && i < |s.grants|
    ensures KeptIn(s.mem, Step(s, Grow(root, n, prot)).mem, s.grants[i])
  {
    var base, flags := s.bases[root], EntryFlags(prot);
    EntryWord(prot, 7);
    var g := s.grants[i];
    assert GrantOk(s, g);
    SeparateRanges(g, Region(root, base, Populate(s.mem, root, base, flags, n).base, n));
    PopulateKeepsRegion(s.mem, g, root, base, flags, n);
  }

  lemma GrowKeepsAll(s: Sys, root: nat, n: nat, prot: nat)
    requires SysOk(s) && Covered(s, Grow(root, n, prot))
    ensures AllKept(s, Step(s, Grow(root, n, prot)))
  {
    forall i | 0 <= i < |s.grants| ensures KeptIn(s.mem, Step(s, Grow(root, n, prot)).mem, s.grants[i]) {
      GrowKeepsGrant(s, root, n, prot, i);
    }
  }

  lemma NoWrap(base: nat, n: nat)
    requires base + FRAME * n <= LOWER_END
    ensures Plus(base, n) == base + FRAME * n && n <= 0x10_0000_0000
  {
  }

  lemma {:induction false} GrowFacts(s: Sys, root: nat, n: nat, prot: nat) returns (h: Region)
    requires SysOk(s) && Covered(s, Grow(root, n, prot))
    ensures Grew(s, Step(s, Grow(root, n, prot)), h) && h.root == root && h.pages == n
  {
    var base, flags := s.bases[root], EntryFlags(prot);
    FlagsPlain(prot);
    NoWrap(base, n);
    h := Region(root, base, Populate(s.mem, root, base, flags, n).base, n);
    PopulateFresh(s.mem, root, base, flags, n);
    GrewIntro(s, Step(s, Grow(root, n, prot)), h, Plus(base, n));
  }

  lemma GrewIntro(s: Sys, s': Sys, h: Region, end: nat)
    requires h.root in s.bases && h.va == s.bases[h.root] && end == h.va + FRAME * h.pages <= LOWER_END
    requires s'.grants == s.grants + [h] && s'.bases == s.bases[h.root := end] && Fresh(s.mem, s'.mem, h)
    ensures Grew(s, s', h)
  {
  }

  lemma FreshDisjoint(m: Mem, g: Region, h: Region)
    requires Holds(m, g) && forall f: nat :: h.Owns(f) ==> f !in m.used
    ensures g.base + g.pages <= h.base || h.base + h.pages <= g.base || g.pages == 0 || h.pages == 0
  {
    if g.pages > 0 && h.pages > 0 {
      var f := if g.base <= h.base then h.base else g.base;
      if g.Owns(f) && h.Owns(f) { assert f in m.used; }
    }
  }

  lemma GrewGrants(s: Sys, s': Sys, h: Region)
    requires SysOk(s) && Grew(s, s', h) && AllKept(s, s')
    ensures forall i :: 0 <= i < |s'.grants| ==> GrantOk(s', s'.grants[i])
  {
    forall i | 0 <= i < |s'.grants| ensures GrantOk(s', s'.grants[i]) {
      if i < |s.grants| {
        assert s'.grants[i] == s.grants[i];
        assert GrantOk(s, s.grants[i]);
        assert KeptIn(s.mem, s'.mem, s.grants[i]);
      }
    }
  }

  lemma GrewDisjoint(s: Sys, s': Sys, h: Region)
    requires SysOk(s) && Grew(s, s', h)
    ensures forall i, j :: 0 <= i < j < |s'.grants| ==> Disjoint(s'.grants[i], s'.grants[j])
  {
    forall i | 0 <= i < |s.grants| ensures Disjoint(s.grants[i], h) {
      assert GrantOk(s, s.grants[i]);
      FreshDisjoint(s.mem, s.grants[i], h);
    }
  }

  lemma GrewOk(s: Sys, s': Sys, h: Region)
    requires SysOk(s) && Grew(s, s', h) && AllKept(s, s')
    ensures SysOk(s')
  {
    GrewGrants(s, s', h);
    GrewDisjoint(s, s', h);
  }

  lemma StoreOkSys(s: Sys, a: nat, value: Byte)
    requires SysOk(s) && DataOnly(s.mem, a, 1)
    ensures SysOk(s.(mem := Written(s.mem, a, [value])))
  {
    var s' := s.(mem := Written(s.mem, a, [value]));
    WrittenOk(s.mem, a, [value]);
    forall i | 0 <= i < |s'.grants| ensures GrantOk(s', s'.grants[i]) {
      assert GrantOk(s, s.grants[i]);
      WrittenKeepsRegion(s.mem, s.grants[i], a, [value]);
    }
  }

  // ----- The reference: every process has private, zero-filled memory -----

  /** One address of one process as that process alone would see it. */
  datatype Cell = Cell(next: nat, value: Option<Byte>)

  function PrivateStep(c: Cell, root: nat, va: nat, e: Event): Cell
  {
    match e
    case Grow(r, n, prot) =>
      if r != root then c
      else
        var end := c.next + FRAME * n;
        Cell(end, if c.next <= va < end then Some(0) else c.value)
    case Store(r, v, value) => if r == root && v == va then c.(value := Some(value)) else c
  }

  function PrivateRun(c: Cell, root: nat, va: nat, es: seq<Event>): Cell
    decreases |es|
  {
    if es == [] then c else PrivateRun(PrivateStep(c, root, va, es[0]), root, va, es[1..])
  }

  /** The same address in the real system, read through the page tables. */
  ghost function SharedView(s: Sys, root: nat, va: nat): Cell
    requires root in s.bases
  {
    Cell(s.bases[root], if Granted(s, root, va) then ByteAt(s.mem, root, va) else None)
  }

  lemma GrewView(s: Sys, s': Sys, h: Region, root: nat, va: nat)
    requires SysOk(s) && Grew(s, s', h) && AllKept(s, s') && root in s.bases
    ensures SharedView(s', root, va) ==
            if h.root != root then SharedView(s, root, va)
            else Cell(h.va + FRAME * h.pages, if Contains(h, root, va) then Some(0) else SharedView(s, root, va).value)
  {
    var n := |s.grants|;
    assert s'.grants[n] == h && forall i :: 0 <= i < n ==> s'.grants[i] == s.grants[i];
    if Contains(h, root, va) {
      GrantAddress(s'.mem, h, va);
      assert Contains(s'.grants[n], root, va);
    } else if Granted(s, root, va) {
      var i :| 0 <= i < n && Contains(s.grants[i], root, va);
      KeptView(s, s', s.grants[i], va);
      assert Contains(s'.grants[i], root, va);
    }
  }

  lemma KeptView(s: Sys, s': Sys, g: Region, va: nat)
    requires GrantOk(s, g) && KeptIn(s.mem, s'.mem, g) && Contains(g, g.root, va)
    ensures ByteAt(s'.mem, g.root, va) == ByteAt(s.mem, g.root, va)
  {
    GrantAddress(s.mem, g, va);
    GrantAddress(s'.mem, g, va);
  }

  /** Two granted addresses of the system are the same byte of memory only if they are the
      same address of the same process. */
  lemma AddressesApart(s: Sys, root: nat, va: nat, root': nat, va': nat)
    requires SysOk(s) && Granted(s, root, va) && Granted(s, root', va')
    requires AddressOf(s.mem, root, va) == AddressOf(s.mem, root', va')
    ensures root == root' && va == va'
  {
    var i :| 0 <= i < |s.grants| && Contains(s.grants[i], root, va);
    var j :| 0 <= j < |s.grants| && Contains(s.grants[j], root', va');
    assert GrantOk(s, s.grants[i]) && GrantOk(s, s.grants[j]);
    GrantAddress(s.mem, s.grants[i], va);
    GrantAddress(s.mem, s.grants[j], va');
    OneByte(s.grants[i], s.grants[j], va, va');
  }

  /** Ranges that are apart have no byte in common, and one range has each byte once. */
  lemma OneByte(g: Region, h: Region, va: nat, va': nat)
    requires g == h || Disjoint(g, h) || Disjoint(h, g)
    requires Contains(g, g.root, va) && Contains(h, h.root, va')
    requires FRAME * g.base + (va - g.va) == FRAME * h.base + (va' - h.va)
    ensures g.root == h.root && va == va'
  {
  }

  lemma StoreView(s: Sys, r: nat, v: nat, value: Byte, root: nat, va: nat)
    requires SysOk(s) && Granted(s, r, v) && root in s.bases && AddressOf(s.mem, r, v) < |s.mem.ram|
    ensures
      var s' := s.(mem := Written(s.mem, AddressOf(s.mem, r, v), [value]));
      SharedView(s', root, va) ==
      if r == root && v == va then SharedView(s, root, va).(value := Some(value)) else SharedView(s, root, va)
  {
    var a := AddressOf(s.mem, r, v);
    var s' := s.(mem := Written(s.mem, a, [value]));
    StoreInRam(s, r, v);
    assert Granted(s', root, va) == Granted(s, root, va);
    if Granted(s, root, va) {
      var i :| 0 <= i < |s.grants| && Contains(s.grants[i], root, va);
      assert GrantOk(s, s.grants[i]);
      StoredByte(s.mem, s.grants[i], a, value, va);
      if AddressOf(s.mem, root, va) == a { AddressesApart(s, root, va, r, v); }
    }
  }

  lemma StoredByte(m: Mem, g: Region, a: nat, value: Byte, va: nat)
    requires MemOk(m) && DataOnly(m, a, 1) && Holds(m, g) && Backed(m, g)
    requires g.va % FRAME == 0 && Contains(g, g.root, va)
    ensures ByteAt(Written(m, a, [value]), g.root, va) ==
            if AddressOf(m, g.root, va) == a then Some(value) else ByteAt(m, g.root, va)
  {
    WrittenKeepsRegion(m, g, a, [value]);
    GrantAddress(m, g, va);
    GrantAddress(Written(m, a, [value]), g, va);
  }

  ghost predicate CoveredRun(s: Sys, es: seq<Event>)
    decreases |es|
  {
    es == [] || (SysOk(s) && Covered(s, es[0]) && CoveredRun(Step(s, es[0]), es[1..]))
  }

  ghost function Run(s: Sys, es: seq<Event>): Sys
    requires CoveredRun(s, es)
    decreases |es|
  {
    if es == [] then s else Run(Step(s, es[0]), es[1..])
  }

  /** One call or store, seen from one address of one process. */
  lemma StepIsPrivate(s: Sys, e: Event, root: nat, va: nat)
    requires SysOk(s) && Covered(s, e) && root in s.bases
    ensures SysOk(Step(s, e)) && root in Step(s, e).bases
    ensures SharedView(Step(s, e), root, va) == PrivateStep(SharedView(s, root, va), root, va, e)
  {
    match e
    case Grow(r, n, prot) => {
      var h := GrowFacts(s, r, n, prot);
      GrowKeepsAll(s, r, n, prot);
      GrewOk(s, Step(s, e), h);
      GrewView(s, Step(s, e), h, root, va);
    }
    case Store(r, v, value) => {
      StoreInRam(s, r, v);
      StoreOkSys(s, AddressOf(s.mem, r, v), value);
      StoreView(s, r, v, value, root, va);
    }
  }

  /** Over every interleaving of the processes' calls and stores: ranges and frames stay
      disjoint, and each process reads exactly what it alone stored. */
  lemma {:induction false} ProcessesArePrivate(s: Sys, es: seq<Event>, root: nat, va: nat)
    requires SysOk(s) && CoveredRun(s, es) && root in s.bases
    ensures SysOk(Run(s, es)) && root in Run(s, es).bases
    ensures SharedView(Run(s, es), root, va) == PrivateRun(SharedView(s, root, va), root, va, es)
    decreases |es|
  {
    if es != [] {
      StepIsPrivate(s, es[0], root, va);
      ProcessesArePrivate(Step(s, es[0]), es[1..], root, va);
    }
  }
}
