/** src/memory/vmm.c as it runs: table entries written in place, frames taken from the bitmap.
    Every method is proved against the functions of PageTables, AddressSpaces and
    AddressSpaceRuns. An ok result of false is a failed assertion, which halts the kernel. */
module VirtualMemoryManager {
  import opened Words
  import opened PhysicalMemory
  import opened FrameAllocator
  import opened RadixTree
  import PT = PageTables
  import AS = AddressSpaces
  import Runs = AddressSpaceRuns

  class Vmm {
    const pmm: Pmm
    var ram: Ram
    ghost var tables: Places

    ghost function Abs(): PT.Mem
      reads this, pmm, pmm.bitmap
    {
      PT.Mem(ram, pmm.Used(), pmm.limit, tables)
    }

    ghost predicate Valid()
      reads this, pmm, pmm.bitmap
    {
      pmm.Valid() && PT.MemOk(Abs())
    }

    /** vmm_init up to the first mapping: a kernel root in a zeroed frame. */
    constructor (pmm: Pmm, ram: Ram, root: nat)
      requires pmm.Valid() && FRAME * pmm.limit <= |ram| && pmm.limit <= 0x100_0000_0000
      requires root in pmm.Used() && 1 <= root < pmm.limit
      requires forall k :: FRAME * root <= k < FRAME * root + FRAME ==> ram[k] == 0
      ensures this.pmm == pmm && this.ram == ram && Valid() && Root(tables, root)
      ensures forall va :: PT.EntryFor(Abs(), root, va) == 0
    {
      this.pmm := pmm;
      this.ram := ram;
      this.tables := map[root := Place(root, [], root)];
      new;
      forall j: nat | j < 512 ensures PT.View(Abs())(root, j) == 0 {
        WordZero(ram, FRAME * root + 8 * j);
      }
      assert PlaceOk(tables, root);
      forall va ensures PT.EntryFor(Abs(), root, va) == 0 {
        BlankLeaf(PT.View(Abs()), root, PT.Upper(va), PT.Lower(va));
      }
    }

    /** pmm_calloc. */
    method Calloc(n: nat) returns (r: Option<nat>)
      requires pmm.Valid() && FRAME * pmm.limit <= |ram|
      modifies this`ram, pmm.bitmap
      ensures pmm.Valid() && (Abs(), r) == PT.Calloc(old(Abs()), n)
    {
      r := pmm.Malloc(n);
      match r
      case Some(b) => ram := PT.Cleared(ram, b, n);
      case None =>
        ram := PT.Cleared(ram, 0, Min(n, |ram| / FRAME));
        assert pmm.Used() == old(pmm.Used());
    }

    /** get_next_level, on entry i of the table in frame f. */
    method GetNextLevel(f: nat, i: nat) returns (ok: bool, next: nat)
      requires Valid() && PT.Inner(Abs(), f, i)
      modifies this, pmm.bitmap
      ensures ok == PT.NextLevel(old(Abs()), f, i).Some?
      ensures ok ==> (Abs(), next) == PT.NextLevel(old(Abs()), f, i).value && Valid()
    {
      var e := WordAt(ram, FRAME * f + 8 * i);
      if Present(e) {
        return true, FrameOf(e);
      }
      var r := Calloc(1);
      if r.None? {
        return false, 0;
      }
      next := r.value;
      PT.FlagsKeepFrame(next, 7);
      ram := PutWord(ram, FRAME * f + 8 * i, BitOr(FRAME * next, 7));
      tables := Grown(tables, f, i, next);
      ok := true;
    }

    /** Three calls of get_next_level. */
    method WalkLevels(root: nat, i4: nat, i3: nat, i2: nat) returns (ok: bool, pml1: nat)
      requires Valid() && Root(tables, root) && i4 < 512 && i3 < 512 && i2 < 512
      modifies this, pmm.bitmap
      ensures ok == PT.Descend(old(Abs()), root, [i4, i3, i2]).Some?
      ensures ok ==> (Abs(), pml1) == PT.Descend(old(Abs()), root, [i4, i3, i2]).value && Valid()
    {
      var pml3: nat, pml2: nat;
      assert [i4, i3, i2] == [i4] + [i3, i2] && [i3, i2] == [i3] + [i2] && [i2] == [i2] + [];
      PT.DescendStep(Abs(), root, i4, [i3, i2]);
      ok, pml3 := GetNextLevel(root, i4);
      if !ok { return false, 0; }
      PT.DescendStep(Abs(), pml3, i3, [i2]);
      ok, pml2 := GetNextLevel(pml3, i3);
      if !ok { return false, 0; }
      PT.DescendStep(Abs(), pml2, i2, []);
      ok, pml1 := GetNextLevel(pml2, i2);
    }

    /** The walk that vmm_map_page, vmm_unmap_page and virt_to_pte have in common. */
    method Walk(root: nat, va: nat) returns (ok: bool, pml1: nat)
      requires Valid() && Root(tables, root)
      modifies this, pmm.bitmap
      ensures ok == PT.Descend(old(Abs()), root, PT.Upper(va)).Some?
      ensures ok ==> (Abs(), pml1) == PT.Descend(old(Abs()), root, PT.Upper(va)).value && Valid()
    {
      ok, pml1 := WalkLevels(root, va / 0x80_0000_0000 % 512, va / 0x4000_0000 % 512, va / 0x20_0000 % 512);
    }

    /** The store at the end of vmm_map_page and vmm_unmap_page. */
    method SetEntry(root: nat, va: nat, w: nat) returns (ok: bool)
      requires Valid() && Root(tables, root) && w < WORD
      modifies this, pmm.bitmap
      ensures ok == PT.SetEntry(old(Abs()), root, va, w).Some?
      ensures ok ==> Abs() == PT.SetEntry(old(Abs()), root, va, w).value && Valid()
    {
      var pml1: nat;
      ok, pml1 := Walk(root, va);
      if ok {
        ghost var m := Abs();
        StoreIs(m, old(Abs()), root, va, w, pml1);
        ram := PutWord(ram, FRAME * pml1 + 8 * PT.Lower(va), w);
        assert Abs() == PT.Stored(m, pml1, PT.Lower(va), w);
      }
    }

    method MapPage(root: nat, pa: nat, va: nat, flags: nat) returns (ok: bool)
      requires Valid() && Root(tables, root) && pa < WORD && flags < WORD
      modifies this, pmm.bitmap
      ensures ok == AS.MapPage(old(Abs()), root, pa, va, flags).Some?
      ensures ok ==> Abs() == AS.MapPage(old(Abs()), root, pa, va, flags).value && Valid()
    {
      AS.EntryWord(pa, flags);
      ok := SetEntry(root, va, BitOr(pa, flags));
    }

    method UnmapPage(root: nat, va: nat) returns (ok: bool)
      requires Valid() && Root(tables, root)
      modifies this, pmm.bitmap
      ensures ok == AS.UnmapPage(old(Abs()), root, va).Some?
      ensures ok ==> Abs() == AS.UnmapPage(old(Abs()), root, va).value && Valid()
    {
      ok := SetEntry(root, va, 0);
    }

    method VirtToPhys(root: nat, va: nat) returns (ok: bool, pa: nat)
      requires Valid() && Root(tables, root)
      modifies this, pmm.bitmap
      ensures ok == AS.VirtToPhys(old(Abs()), root, va).Some?
      ensures ok ==> (Abs(), pa) == AS.VirtToPhys(old(Abs()), root, va).value && Valid()
    {
      var pml1: nat;
      ok, pml1 := Walk(root, va);
      pa := 0;
      if ok {
        LookupIs(Abs(), old(Abs()), root, va, pml1);
        pa := FRAME * FrameOf(PT.Entry(ram, pml1, PT.Lower(va)));
      }
    }

    /** vmm_map_pages. */
    method MapPages(root: nat, pa: nat, va: nat, flags: nat, pages: nat) returns (ok: bool)
      requires Valid() && Root(tables, root) && flags < WORD
      modifies this, pmm.bitmap
      ensures ok == AS.MapPages(old(Abs()), root, pa, va, flags, pages).Some?
      ensures ok ==> Abs() == AS.MapPages(old(Abs()), root, pa, va, flags, pages).value && Valid()
    {
      ghost var m0, js := Abs(), AS.Jobs(pa, va, flags, pages);
      var i := 0;
      while i < pages
        invariant 0 <= i <= pages
        invariant Valid() && Root(tables, root)
        invariant AS.StoreAll(m0, root, js[..i]) == Some(Abs())
      {
        var p, v := AS.Plus(pa, i), AS.Plus(va, i);
        assert js[i].va == v && js[i].w == BitOr(p, flags);
        StoreNext(m0, root, js, i);
        ok := MapPage(root, p, v, flags);
        if !ok {
          StoreAllStops(m0, root, js, i + 1);
          return;
        }
        i := i + 1;
      }
      assert js[..pages] == js;
      ok := true;
    }

    /** vmm_new_pagemap; k is the root of kernel_pagemap. */
    method NewPagemap(k: nat) returns (ok: bool, top: nat)
      requires Valid() && Root(tables, k)
      modifies this, pmm.bitmap
      ensures ok == Runs.NewSpace(old(Abs()), k).Some?
      ensures ok ==> (Abs(), top) == Runs.NewSpace(old(Abs()), k).value && Valid()
    {
      ghost var m0 := Abs();
      PT.CallocOk(m0, 1);
      var struct := Calloc(1);
      if struct.None? { return false, 0; }
      ghost var m1 := Abs();
      var r := Calloc(1);
      if r.None? { return false, 0; }
      top := r.value;
      Runs.NewSpaceOk(m0, m1, Abs(), k, top);
      CopyUpper(k, top);
      tables := Rooted(tables, top);
      ok := true;
    }

    /** The copy loop of vmm_new_pagemap. */
    method CopyUpper(k: nat, top: nat)
      requires FRAME * k + FRAME <= |ram| && FRAME * top + FRAME <= |ram| && k != top
      modifies this`ram
      ensures ram == Runs.UpperCopied(old(ram), k, top)
    {
      ghost var ram0 := ram;
      for i := 256 to 512
        invariant CopiedTo(ram0, ram, k, top, i)
      {
        var from := FRAME * k + 8 * i;
        ghost var before := ram;
        ram := Blit(ram, FRAME * top + 8 * i, ram[from..from + 8]);
        CopyStep(ram0, before, ram, k, top, i);
      }
      CopyDone(ram0, ram, k, top);
    }
  }

  /** Where byte a comes from once the entries 256..i-1 of table k are copied to table top. */
  function Origin(k: nat, top: nat, i: nat, a: nat): int
  {
    if FRAME * top + 2048 <= a < FRAME * top + 8 * i then a - FRAME * top + FRAME * k else a
  }

  ghost predicate CopiedTo(ram0: Ram, ram: Ram, k: nat, top: nat, i: nat)
  {
    && |ram| == |ram0| && i <= 512 && FRAME * k + FRAME <= |ram| && FRAME * top + FRAME <= |ram|
    && forall a: nat :: a < |ram| ==> ram[a] == ram0[Origin(k, top, i, a)]
  }

  lemma CopyDone(ram0: Ram, ram: Ram, k: nat, top: nat)
    requires CopiedTo(ram0, ram, k, top, 512)
    ensures ram == Runs.UpperCopied(ram0, k, top)
  {
    var r := Runs.UpperCopied(ram0, k, top);
    var d := ram0[FRAME * k + 2048..FRAME * k + FRAME];
    forall a: nat | a < |ram| ensures ram[a] == r[a] {
      var o := Origin(k, top, 512, a);
      assert ram[a] == ram0[o];
      if FRAME * top + 2048 <= a < FRAME * top + FRAME {
        assert r[a] == d[a - (FRAME * top + 2048)] == ram0[o];
      }
    }
  }

  lemma CopyStep(ram0: Ram, ram: Ram, ram': Ram, k: nat, top: nat, i: nat)
    requires 256 <= i < 512 && k != top && CopiedTo(ram0, ram, k, top, i)
    requires ram' == Blit(ram, FRAME * top + 8 * i, ram[FRAME * k + 8 * i..FRAME * k + 8 * i + 8])
    ensures CopiedTo(ram0, ram', k, top, i + 1)
  {
    var d := ram[FRAME * k + 8 * i..FRAME * k + 8 * i + 8];
    forall a: nat | a < |ram| ensures ram'[a] == ram0[Origin(k, top, i + 1, a)] {
      if FRAME * top + 8 * i <= a < FRAME * top + 8 * i + 8 {
        var b: nat := a - FRAME * top + FRAME * k;
        assert ram'[a] == d[a - (FRAME * top + 8 * i)] == ram[b];
        assert k + 1 <= top || top + 1 <= k;
        assert Origin(k, top, i, b) == b;
      } else {
        assert ram'[a] == ram[a];
        assert Origin(k, top, i + 1, a) == Origin(k, top, i, a);
      }
    }
  }

  lemma {:induction false} StoreNext(m: PT.Mem, root: nat, js: seq<AS.Job>, i: nat)
    requires PT.MemOk(m) && Root(m.tables, root) && AS.Words64(js) && i < |js|
    requires AS.StoreAll(m, root, js[..i]).Some?
    ensures AS.StoreAll(m, root, js[..i + 1]) ==
            PT.SetEntry(AS.StoreAll(m, root, js[..i]).value, root, js[i].va, js[i].w)
  {
    var all := js[..i + 1];
    assert all[..|all| - 1] == js[..i] && all[|all| - 1] == js[i];
  }

  /** Once a job halts the kernel, the whole list of jobs does. */
  lemma {:induction false} StoreAllStops(m: PT.Mem, root: nat, js: seq<AS.Job>, n: nat)
    requires PT.MemOk(m) && Root(m.tables, root) && AS.Words64(js) && n <= |js|
    requires AS.StoreAll(m, root, js[..n]).None?
    ensures AS.StoreAll(m, root, js).None?
    decreases |js|
  {
    if n < |js| {
      var front := js[..|js| - 1];
      assert front[..n] == js[..n];
      StoreAllStops(m, root, front, n);
    } else {
      assert js[..n] == js;
    }
  }

  lemma LookupIs(m1: PT.Mem, m: PT.Mem, root: nat, va: nat, g: nat)
    requires PT.MemOk(m) && Root(m.tables, root) && PT.Descend(m, root, PT.Upper(va)) == Some((m1, g))
    ensures AS.VirtToPhys(m, root, va) == Some((m1, FRAME * FrameOf(PT.Entry(m1.ram, g, PT.Lower(va)))))
  {
  }

  lemma StoreIs(m1: PT.Mem, m: PT.Mem, root: nat, va: nat, w: nat, g: nat)
    requires PT.MemOk(m) && Root(m.tables, root) && w < WORD && PT.Descend(m, root, PT.Upper(va)) == Some((m1, g))
    ensures FRAME * g + FRAME <= |m1.ram| && PT.SetEntry(m, root, va, w) == Some(PT.Stored(m1, g, PT.Lower(va), w))
  {
  }
}
