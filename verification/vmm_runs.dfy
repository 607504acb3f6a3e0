/** vmm_new_pagemap, and address spaces over whole runs of the virtual memory manager. */
module AddressSpaceRuns {
  import opened Words
  import opened PhysicalMemory
  import opened FrameAllocator
  import opened RadixTree
  import opened PageTables
  import opened AddressSpaces

  // ----- vmm_new_pagemap -----

  /** The copy loop over root entries 256..511. */
  function UpperCopied(m: Ram, k: nat, t: nat): Ram
    requires FRAME * k + FRAME <= |m| && FRAME * t + FRAME <= |m|
  {
    Blit(m, FRAME * t + 2048, m[FRAME * k + 2048..FRAME * k + FRAME])
  }

  lemma UpperCopiedEntry(m: Ram, k: nat, t: nat, g: nat, j: nat)
    requires FRAME * k + FRAME <= |m| && FRAME * t + FRAME <= |m| && j < 512 && k != t
    ensures Entry(UpperCopied(m, k, t), g, j) == if g == t && j >= 256 then Entry(m, k, j) else Entry(m, g, j)
  {
    var r := UpperCopied(m, k, t);
    if g == t && j >= 256 {
      var a, b := FRAME * t + 8 * j, FRAME * k + 8 * j;
      assert r[a..a + 8] == m[b..b + 8];
    } else {
      WordFrame(m, r, FRAME * g + 8 * j);
    }
  }

  /** One frame for the pagemap structure, one for its root table, the root's upper half
      copied from the kernel's root k. None is a failed assertion. */
  function NewSpace(m: Mem, k: nat): (r: Option<(Mem, nat)>)
    requires MemOk(m) && Root(m.tables, k)
    ensures r.Some? ==> MemOk(r.value.0) && Extends(m, r.value.0)
    ensures r.Some? ==> r.value.1 !in m.used && r.value.0.tables == Rooted(m.tables, r.value.1)
    ensures r.Some? ==> AddsRoot(View(m), View(r.value.0), m.tables, k, r.value.1)
  {
    CallocOk(m, 1);
    var (m1, s) := Calloc(m, 1);
    if s.None? then None
    else
      CallocOk(m1, 1);
      var (m2, t) := Calloc(m1, 1);
      if t.None? then None
      else
        NewSpaceOk(m, m1, m2, k, t.value);
        Some((m2.(ram := UpperCopied(m2.ram, k, t.value), tables := Rooted(m.tables, t.value)), t.value))
  }

  lemma NewRootView(m1: Mem, k: nat, t: nat, used: set<nat>, tables: Places)
    requires FRAME * m1.limit <= |m1.ram| && k < m1.limit && t < m1.limit
    requires Root(m1.tables, k) && t !in m1.tables
    ensures
      var m3 := Mem(UpperCopied(Cleared(m1.ram, t, 1), k, t), used, m1.limit, tables);
      AddsRoot(View(m1), View(m3), m1.tables, k, t)
  {
    var m3 := Mem(UpperCopied(Cleared(m1.ram, t, 1), k, t), used, m1.limit, tables);
    forall g: nat, j: nat | j < 512
      ensures View(m3)(g, j) ==
              if g == t && j >= 256 then View(m1)(k, j) else if g == t then 0 else View(m1)(g, j)
    {
      UpperCopiedEntry(Cleared(m1.ram, t, 1), k, t, g, j);
      ClearedEntry(m1.ram, t, 1, g, j);
      ClearedEntry(m1.ram, t, 1, k, j);
    }
  }

  lemma AddsRootAfter(s: Store, s1: Store, s3: Store, t: Places, k: nat, r: nat)
    requires Same(s, s1, t) && AddsRoot(s1, s3, t, k, r)
    ensures AddsRoot(s, s3, t, k, r)
  {
    forall g, j | g in t && 0 <= j < 512 ensures s3(g, j) == s(g, j) {
      assert s3(g, j) == s1(g, j);
    }
    forall j | 256 <= j < 512 ensures s3(r, j) == s(k, j) {
      assert s3(r, j) == s1(k, j);
    }
  }

  lemma NewSpaceOk(m: Mem, m1: Mem, m2: Mem, k: nat, t: nat)
    requires MemOk(m) && Root(m.tables, k)
    requires Calloc(m, 1).0 == m1 && Calloc(m, 1).1.Some? && Calloc(m1, 1) == (m2, Some(t))
    ensures t !in m.used && FRAME * k + FRAME <= |m2.ram| && FRAME * t + FRAME <= |m2.ram|
    ensures
      var m3 := m2.(ram := UpperCopied(m2.ram, k, t), tables := Rooted(m.tables, t));
      MemOk(m3) && Extends(m, m3) && AddsRoot(View(m), View(m3), m.tables, k, t)
  {
    CallocOk(m, 1);
    var m3 := m2.(ram := UpperCopied(m2.ram, k, t), tables := Rooted(m.tables, t));
    assert t !in m1.used;
    NewRootView(m1, k, t, m3.used, m3.tables);
    AddsRootAfter(View(m), View(m1), View(m3), m.tables, k, t);
    RootForest(View(m), View(m3), m.tables, k, t);
    forall a | 0 <= a < |m.ram| && a / FRAME in m.used && a / FRAME !in m.tables
      ensures m3.ram[a] == m.ram[a]
    {
      assert a / FRAME != t;
    }
  }

  /** A new space translates nothing in its lower half, shares the kernel's translations
      above it, and changes no other space. */
  lemma NewSpaceEntries(m: Mem, k: nat, b: nat, vb: nat)
    requires MemOk(m) && Root(m.tables, k) && NewSpace(m, k).Some?
    requires b == NewSpace(m, k).value.1 || Root(m.tables, b)
    ensures
      var (m', t) := NewSpace(m, k).value;
      EntryFor(m', b, vb) ==
      if b != t then EntryFor(m, b, vb) else if LowerHalf(vb) then 0 else EntryFor(m, k, vb)
  {
    var (m', t) := NewSpace(m, k).value;
    if b == t {
      RootLeaf(View(m), View(m'), m.tables, k, t, Upper(vb), Lower(vb));
    } else {
      SameKeepsReach(View(m), View(m'), m.tables, b, Upper(vb));
    }
  }

  /** Building tables makes no new root. */
  lemma {:induction false} DescendAddsNoRoot(m: Mem, f: nat, idx: seq<nat>, b: nat)
    requires MemOk(m) && Below(m, f, idx) && Descend(m, f, idx).Some?
    requires Root(Descend(m, f, idx).value.0.tables, b)
    ensures Root(m.tables, b)
    decreases |idx|
  {
    if idx != [] {
      var (m1, g) := NextLevel(m, f, idx[0]).value;
      DescendAddsNoRoot(m1, g, idx[1..], b);
      NextGrows(m, f, idx[0]);
      assert |m1.tables[g].path| > 0;
    }
  }

  // ----- Runs -----

  datatype Call =
    | Create
    | Map(root: nat, pa: nat, va: nat, flags: nat)
    | Unmap(root: nat, va: nat)
    | Lookup(root: nat, va: nat)

  /** One call; k is the kernel's root. None when the kernel halts, or when the call names a
      root that is not a page map. */
  function Exec(m: Mem, k: nat, c: Call): (r: Option<Mem>)
    requires MemOk(m) && Root(m.tables, k)
    ensures r.Some? ==> MemOk(r.value) && Extends(m, r.value) && Root(r.value.tables, k)
  {
    match c
    case Create =>
      (match NewSpace(m, k)
       case None => None
       case Some(p) => Some(p.0))
    case Map(root, pa, va, flags) =>
      if Root(m.tables, root) && pa < WORD && flags < WORD then MapPage(m, root, pa, va, flags) else None
    case Unmap(root, va) =>
      if Root(m.tables, root) then UnmapPage(m, root, va) else None
    case Lookup(root, va) =>
      if Root(m.tables, root) && VirtToPhys(m, root, va).Some? then
        DescendExtends(m, root, Upper(va));
        Some(VirtToPhys(m, root, va).value.0)
      else None
  }

  function ExecAll(m: Mem, k: nat, cs: seq<Call>): (r: Option<Mem>)
    requires MemOk(m) && Root(m.tables, k)
    ensures r.Some? ==> MemOk(r.value) && Extends(m, r.value) && Root(r.value.tables, k)
    decreases |cs|
  {
    if cs == [] then Some(m)
    else
      match Exec(m, k, cs[0])
      case None => None
      case Some(m1) =>
        var r := ExecAll(m1, k, cs[1..]);
        if r.Some? then ExtendsTransitive(m, m1, r.value); r else r
  }

  /** The reference: what a call does to the entry v of page p in space b of a kernel whose
      spaces are separate flat maps. */
  function Effect(c: Call, b: nat, p: nat, v: nat): nat
  {
    match c
    case Map(root, pa, va, flags) => if root == b && Page(va) == p then BitOr(pa, flags) else v
    case Unmap(root, va) => if root == b && Page(va) == p then 0 else v
    case Create => v
    case Lookup(root, va) => v
  }

  function Replay(cs: seq<Call>, b: nat, p: nat, v: nat): nat
    decreases |cs|
  {
    if cs == [] then v else Replay(cs[1..], b, p, Effect(cs[0], b, p, v))
  }

  lemma ExecLower(m: Mem, k: nat, c: Call, b: nat, vb: nat)
    requires MemOk(m) && Root(m.tables, k) && Root(m.tables, b) && LowerHalf(vb)
    requires Exec(m, k, c).Some?
    ensures EntryFor(Exec(m, k, c).value, b, vb) == Effect(c, b, Page(vb), EntryFor(m, b, vb))
  {
    match c
    case Create => NewSpaceEntries(m, k, b, vb);
    case Map(root, pa, va, flags) => {
      EntryWord(pa, flags);
      SetEntryFlat(m, root, va, BitOr(pa, flags), b, vb);
      SamePage(va, vb);
    }
    case Unmap(root, va) => {
      SetEntryFlat(m, root, va, 0, b, vb);
      SamePage(va, vb);
    }
    case Lookup(root, va) => LookupFlat(m, root, va, b, vb);
  }

  /** A space that a call adds starts with an empty lower half. */
  lemma ExecNewRoot(m: Mem, k: nat, c: Call, b: nat, vb: nat)
    requires MemOk(m) && Root(m.tables, k) && !Root(m.tables, b) && LowerHalf(vb)
    requires Exec(m, k, c).Some? && Root(Exec(m, k, c).value.tables, b)
    ensures c == Create && EntryFor(Exec(m, k, c).value, b, vb) == 0
  {
    match c
    case Create => NewSpaceEntries(m, k, b, vb);
    case Map(root, pa, va, flags) => DescendAddsNoRoot(m, root, Upper(va), b);
    case Unmap(root, va) => DescendAddsNoRoot(m, root, Upper(va), b);
    case Lookup(root, va) => DescendAddsNoRoot(m, root, Upper(va), b);
  }

  lemma ExecForeign(m: Mem, k: nat, c: Call, b: nat, p: nat)
    requires MemOk(m) && Root(m.tables, k) && !Root(m.tables, b) && Exec(m, k, c).Some?
    ensures Effect(c, b, p, 0) == 0
  {
  }

  function StartEntry(m: Mem, b: nat, vb: nat): nat
  {
    if Root(m.tables, b) then EntryFor(m, b, vb) else 0
  }

  /** Isolation and refinement over whole runs: after any sequence of calls, the lower half of
      every space holds exactly what the calls on that space alone put there. */
  lemma {:induction false} RunIsReplay(m: Mem, k: nat, cs: seq<Call>, b: nat, vb: nat)
    requires MemOk(m) && Root(m.tables, k) && ExecAll(m, k, cs).Some?
    requires Root(ExecAll(m, k, cs).value.tables, b) && LowerHalf(vb)
    ensures EntryFor(ExecAll(m, k, cs).value, b, vb) == Replay(cs, b, Page(vb), StartEntry(m, b, vb))
    decreases |cs|
  {
    if cs != [] {
      var m1 := Exec(m, k, cs[0]).value;
      RunIsReplay(m1, k, cs[1..], b, vb);
      if Root(m.tables, b) {
        ExecLower(m, k, cs[0], b, vb);
      } else {
        ExecForeign(m, k, cs[0], b, Page(vb));
        if Root(m1.tables, b) { ExecNewRoot(m, k, cs[0], b, vb); }
      }
    }
  }

  // ----- The shared kernel half -----

  lemma SharedEntriesAgree(m: Mem, a: nat, b: nat, va: nat)
    requires Shares(View(m), a, b, Upper(va)[0])
    ensures EntryFor(m, a, va) == EntryFor(m, b, va)
  {
    var s, idx := View(m), Upper(va);
    if a != b {
      assert Reach(s, a, idx) == Reach(s, FrameOf(s(a, idx[0])), idx[1..]);
      assert Reach(s, b, idx) == Reach(s, FrameOf(s(b, idx[0])), idx[1..]);
    }
  }

  // ----- Sharing neither starts nor ends -----

  /** Building tables changes no root-level entry but the one it goes through, and that only when it is
      missing. */
  lemma {:induction false} DescendKeepsRootEntry(m: Mem, f: nat, idx: seq<nat>, b: nat, j: nat)
    requires MemOk(m) && Below(m, f, idx) && idx != [] && Descend(m, f, idx).Some?
    requires Root(m.tables, b) && j < 512 && (b != f || j != idx[0] || Present(View(m)(b, j)))
    ensures View(Descend(m, f, idx).value.0)(b, j) == View(m)(b, j)
  {
    var (m1, g) := NextLevel(m, f, idx[0]).value;
    NextExtends(m, f, idx[0]);
    NextKeepsEntry(m, f, idx[0], b, j);
    assert b != g by { assert |m1.tables[g].path| > 0 && m1.tables[b].path == []; }
    DescendKeepsRoot(m1, g, idx[1..], b, j);
  }

  lemma DescendShares(m: Mem, r: nat, idx: seq<nat>, a: nat, b: nat, i: nat)
    requires MemOk(m) && Root(m.tables, r) && |idx| == 3 && Indices(idx) && Descend(m, r, idx).Some?
    requires Root(m.tables, a) && Root(m.tables, b) && i < 512
    ensures Shares(View(Descend(m, r, idx).value.0), a, b, i) == Shares(View(m), a, b, i)
  {
    if i == idx[0] && r == a { SharesKept(m, a, b, idx); }
    else if i == idx[0] && r == b { SharesKept(m, b, a, idx); }
    else {
      DescendKeepsRootEntry(m, r, idx, a, i);
      DescendKeepsRootEntry(m, r, idx, b, i);
    }
  }

  lemma SetShares(m: Mem, root: nat, va: nat, w: nat, a: nat, b: nat, i: nat)
    requires MemOk(m) && Root(m.tables, root) && w < WORD && SetEntry(m, root, va, w).Some?
    requires Root(m.tables, a) && Root(m.tables, b) && i < 512
    ensures Shares(View(SetEntry(m, root, va, w).value), a, b, i) == Shares(View(m), a, b, i)
  {
    var (m1, g) := Descend(m, root, Upper(va)).value;
    DescendExtends(m, root, Upper(va));
    DescendShares(m, root, Upper(va), a, b, i);
    assert a != g && b != g by {
      assert |m1.tables[g].path| == 3 && |m1.tables[a].path| == 0 && |m1.tables[b].path| == 0;
    }
    StoreSameBut(m1, g, Lower(va), w);
  }

  lemma ExecShares(m: Mem, k: nat, c: Call, a: nat, b: nat, i: nat)
    requires MemOk(m) && Root(m.tables, k) && Root(m.tables, a) && Root(m.tables, b) && i < 512 && Exec(m, k, c).Some?
    ensures Shares(View(Exec(m, k, c).value), a, b, i) == Shares(View(m), a, b, i)
  {
    match c
    case Create =>
    case Map(root, pa, va, flags) => {
      EntryWord(pa, flags);
      SetShares(m, root, va, BitOr(pa, flags), a, b, i);
    }
    case Unmap(root, va) => SetShares(m, root, va, 0, a, b, i);
    case Lookup(root, va) => DescendShares(m, root, Upper(va), a, b, i);
  }

  /** Over any run two page maps share exactly the root-level entries they shared at its start. */
  lemma {:induction false} RunShares(m: Mem, k: nat, cs: seq<Call>, a: nat, b: nat, i: nat)
    requires MemOk(m) && Root(m.tables, k) && Root(m.tables, a) && Root(m.tables, b) && i < 512
    requires ExecAll(m, k, cs).Some?
    ensures Shares(View(ExecAll(m, k, cs).value), a, b, i) == Shares(View(m), a, b, i)
    decreases |cs|
  {
    if cs != [] {
      ExecShares(m, k, cs[0], a, b, i);
      RunShares(Exec(m, k, cs[0]).value, k, cs[1..], a, b, i);
    }
  }

  /** A new page map shares the upper-half entries that the kernel's root has at that time. */
  lemma NewSpaceShares(m: Mem, k: nat, i: nat)
    requires MemOk(m) && Root(m.tables, k) && NewSpace(m, k).Some? && 256 <= i < 512
    ensures var (m1, t) := NewSpace(m, k).value; Shares(View(m1), k, t, i) <==> Present(View(m)(k, i))
  {
    var (m1, t) := NewSpace(m, k).value;
    assert View(m1)(t, i) == View(m)(k, i) && View(m1)(k, i) == View(m)(k, i);
  }

  /** Over whole runs, a space sees every kernel mapping made before or after its creation
      under a root-level entry the kernel had when the space was created. */
  lemma KernelHalfShared(m: Mem, k: nat, cs: seq<Call>, va: nat)
    requires MemOk(m) && Root(m.tables, k) && NewSpace(m, k).Some?
    requires !LowerHalf(va) && Present(View(m)(k, Upper(va)[0]))
    requires ExecAll(NewSpace(m, k).value.0, k, cs).Some?
    ensures
      var (m1, t) := NewSpace(m, k).value;
      var m2 := ExecAll(m1, k, cs).value;
      EntryFor(m2, t, va) == EntryFor(m2, k, va)
  {
    var (m1, t) := NewSpace(m, k).value;
    NewSpaceShares(m, k, Upper(va)[0]);
    RunShares(m1, k, cs, k, t, Upper(va)[0]);
    SharedEntriesAgree(ExecAll(m1, k, cs).value, k, t, va);
  }

  /** However much happens after a page map is created, a kernel mapping then made in the upper half shows
      up in it exactly when the kernel's root-level entry was there when the page map was created. */
  lemma KernelMappingVisible(m: Mem, k: nat, cs: seq<Call>, va: nat, w: nat)
    requires MemOk(m) && Root(m.tables, k) && NewSpace(m, k).Some? && w < WORD && !LowerHalf(va)
    requires ExecAll(NewSpace(m, k).value.0, k, cs).Some?
    requires SetEntry(ExecAll(NewSpace(m, k).value.0, k, cs).value, k, va, w).Some?
    requires EntryFor(ExecAll(NewSpace(m, k).value.0, k, cs).value, NewSpace(m, k).value.1, va) != w
    ensures
      var (m1, t) := NewSpace(m, k).value;
      var m2 := ExecAll(m1, k, cs).value;
      EntryFor(SetEntry(m2, k, va, w).value, t, va) == w <==> Present(View(m)(k, Upper(va)[0]))
  {
    var (m1, t) := NewSpace(m, k).value;
    var m2 := ExecAll(m1, k, cs).value;
    var i := Upper(va)[0];
    NewSpaceShares(m, k, i);
    RunShares(m1, k, cs, k, t, i);
    SetEntryFlat(m2, k, va, w, t, va);
  }
}
