/** The page tables of src/memory/vmm.c over physical memory: a radix tree of 512-entry
    tables, grown on demand from zeroed frames of the frame allocator. */
module PageTables {
  import opened Words
  import opened PhysicalMemory
  import opened FrameAllocator
  import opened RadixTree

  /** Memory as the virtual memory manager sees it: its bytes, the frames in use, and the
      place of every frame that serves as a page table. */
  datatype Mem = Mem(ram: Ram, used: set<nat>, limit: nat, tables: Places)

  function Entry(m: Ram, f: nat, i: nat): nat { WordAt(m, FRAME * f + 8 * i) }

  function View(m: Mem): Store { (f: nat, i: nat) => Entry(m.ram, f, i) }

  ghost predicate MemOk(m: Mem)
  {
    && FRAME * m.limit <= |m.ram| && m.limit <= 0x100_0000_0000
    && (forall f :: f in m.tables ==> f in m.used && 1 <= f < m.limit)
    && Forest(View(m), m.tables)
  }

  // ----- Single entries in memory -----

  lemma PutEntry(m: Ram, f: nat, i: nat, w: nat, g: nat, j: nat)
    requires FRAME * f + FRAME <= |m| && i < 512 && j < 512 && w < WORD
    ensures Entry(PutWord(m, FRAME * f + 8 * i, w), g, j) == if g == f && j == i then w else Entry(m, g, j)
  {
    if !(g == f && j == i) {
      WordFrame(m, PutWord(m, FRAME * f + 8 * i, w), FRAME * g + 8 * j);
    }
  }

  function Cleared(m: Ram, b: nat, n: nat): (r: Ram)
    requires FRAME * (b + n) <= |m|
    ensures |r| == |m|
    ensures forall k :: 0 <= k < |m| ==> r[k] == if FRAME * b <= k < FRAME * (b + n) then 0 else m[k]
  {
    Blit(m, FRAME * b, Zeros(FRAME * n))
  }

  lemma ClearedEntry(m: Ram, b: nat, n: nat, g: nat, j: nat)
    requires FRAME * (b + n) <= |m| && j < 512
    ensures Entry(Cleared(m, b, n), g, j) == if b <= g < b + n then 0 else Entry(m, g, j)
  {
    if b <= g < b + n {
      WordZero(Cleared(m, b, n), FRAME * g + 8 * j);
    } else {
      WordFrame(m, Cleared(m, b, n), FRAME * g + 8 * j);
    }
  }

  /** A frame address with flag bits below 4096 keeps its frame number. */
  lemma {:induction false} FlagsAdd(g: nat, flags: nat)
    requires flags < FRAME
    ensures BitOr(FRAME * g, flags) == FRAME * g + flags
  {
    Powers();
    OrJoin(g, 0, 0, flags, 12, FRAME * g, flags);
    assert BitOr(g, 0) == g;
  }

  lemma SumFields(w: nat, g: nat, flags: nat)
    requires g < 0x100_0000_0000 && flags < FRAME && w == FRAME * g + flags
    ensures w < WORD && FrameOf(w) == g && Present(w) == Present(flags)
  {
    assert w / FRAME == g;
  }

  lemma {:induction false} FlagsKeepFrame(g: nat, flags: nat)
    requires g < 0x100_0000_0000 && flags < FRAME
    ensures
      var w := BitOr(FRAME * g, flags);
      w < WORD && FrameOf(w) == g && Present(w) == Present(flags)
  {
    var w := BitOr(FRAME * g, flags);
    FlagsAdd(g, flags);
    SumFields(w, g, flags);
  }

  // ----- pmm_calloc -----

  /** pmm_calloc. The result pointer is not checked before it is cleared, so a failed
      request clears memory from physical address 0 on. */
  function Calloc(m: Mem, n: nat): (Mem, Option<nat>)
    requires FRAME * m.limit <= |m.ram|
  {
    match FirstFit(m.used, m.limit, n)
    case Some(b) => (m.(ram := Cleared(m.ram, b, n), used := m.used + Run(b, n)), Some(b))
    case None => (m.(ram := Cleared(m.ram, 0, Min(n, |m.ram| / FRAME))), None)
  }

  /** A successful request leaves every page table and every frame in use alone. */
  lemma CallocOk(m: Mem, n: nat)
    requires MemOk(m)
    ensures
      var (m', r) := Calloc(m, n);
      r.Some? ==>
        && MemOk(m') && Same(View(m), View(m'), m.tables)
        && (forall a :: 0 <= a < |m.ram| && a / FRAME in m.used ==> m'.ram[a] == m.ram[a])
  {
    var (m', r) := Calloc(m, n);
    if r.Some? {
      forall g, j | g in m.tables && 0 <= j < 512 ensures View(m')(g, j) == View(m)(g, j) {
        ClearedEntry(m.ram, r.value, n, g, j);
      }
      SameForest(View(m), View(m'), m.tables);
    }
  }

  lemma SameForest(s: Store, s': Store, t: Places)
    requires Forest(s, t) && Same(s, s', t)
    ensures Forest(s', t)
  {
    forall x, j | x in t && |t[x].path| < 3 && 0 <= j < 512 && Present(s'(x, j))
      ensures Child(t, x, j, FrameOf(s'(x, j)))
    {
      assert s'(x, j) == s(x, j);
    }
    forall x | x in t && t[x].path != [] ensures UpOk(s', t, x) {
      assert PlaceOk(t, x) && UpOk(s, t, x);
      assert s'(t[x].parent, Last(t[x].path)) == s(t[x].parent, Last(t[x].path));
    }
  }

  // ----- get_next_level -----

  predicate Inner(m: Mem, f: nat, i: nat) { f in m.tables && |m.tables[f].path| < 3 && i < 512 }

  /** The word that links a table: its address with the present, writable and user bits. */
  function LinkWord(g: nat): nat { BitOr(FRAME * g, 7) }

  /** get_next_level. None is the failed assertion that halts the kernel. */
  function NextLevel(m: Mem, f: nat, i: nat): (r: Option<(Mem, nat)>)
    requires MemOk(m) && Inner(m, f, i)
    ensures r.Some? ==> MemOk(r.value.0) && r.value.1 in r.value.0.tables
    ensures r.Some? ==> r.value.0.tables[r.value.1].path == m.tables[f].path + [i]
  {
    NextOk(m, f, i);
    var e := Entry(m.ram, f, i);
    if Present(e) then Some((m, FrameOf(e)))
    else
      var (m1, r) := Calloc(m, 1);
      match r
      case None => None
      case Some(g) => Some((Linked(m1, f, i, g), g))
  }

  function Linked(m: Mem, f: nat, i: nat, g: nat): Mem
    requires FRAME * f + FRAME <= |m.ram| && f in m.tables && i < 512 && g < 0x100_0000_0000
  {
    FlagsKeepFrame(g, 7);
    m.(ram := PutWord(m.ram, FRAME * f + 8 * i, LinkWord(g)), tables := Grown(m.tables, f, i, g))
  }

  lemma {:induction false} LinkedEntry(m: Mem, f: nat, i: nat, b: nat, h: nat, j: nat)
    requires FRAME * m.limit <= |m.ram| && f in m.tables && f < m.limit && b < m.limit
    requires i < 512 && j < 512 && b < 0x100_0000_0000 && f != b
    ensures
      var m2 := Linked(m.(ram := Cleared(m.ram, b, 1)), f, i, b);
      Entry(m2.ram, h, j) == if h == f && j == i then LinkWord(b) else if h == b then 0 else Entry(m.ram, h, j)
  {
    FlagsKeepFrame(b, 7);
    PutEntry(Cleared(m.ram, b, 1), f, i, LinkWord(b), h, j);
    ClearedEntry(m.ram, b, 1, h, j);
  }

  lemma {:induction false} LinkWordPoints(g: nat)
    requires g < 0x100_0000_0000
    ensures Present(LinkWord(g)) && FrameOf(LinkWord(g)) == g
  {
    FlagsKeepFrame(g, 7);
  }

  /** Linking a freshly cleared frame grows the tree. */
  lemma {:induction false} LinkGrows(m: Mem, f: nat, i: nat, g: nat, used: set<nat>)
    requires FRAME * m.limit <= |m.ram| && m.limit <= 0x100_0000_0000 && f < m.limit && g < m.limit
    requires Inner(m, f, i) && g !in m.tables && !Present(Entry(m.ram, f, i))
    ensures Grows(View(m), View(Linked(m.(ram := Cleared(m.ram, g, 1), used := used), f, i, g)), m.tables, f, i, g)
  {
    var m2 := Linked(m.(ram := Cleared(m.ram, g, 1), used := used), f, i, g);
    forall h: nat, j: nat | j < 512
      ensures View(m2)(h, j) == if h == f && j == i then LinkWord(g) else if h == g then 0 else View(m)(h, j)
    {
      LinkedEntry(m, f, i, g, h, j);
    }
    LinkWordPoints(g);
  }

  lemma {:induction false} NextOk(m: Mem, f: nat, i: nat)
    requires MemOk(m) && Inner(m, f, i)
    ensures Present(Entry(m.ram, f, i)) ==>
      var g := FrameOf(Entry(m.ram, f, i)); g in m.tables && m.tables[g].path == m.tables[f].path + [i]
    ensures !Present(Entry(m.ram, f, i)) && Calloc(m, 1).1.Some? ==>
      MemOk(Linked(Calloc(m, 1).0, f, i, Calloc(m, 1).1.value))
  {
    if Present(View(m)(f, i)) {
      assert Child(m.tables, f, i, FrameOf(View(m)(f, i)));
    } else if Calloc(m, 1).1.Some? {
      var g := Calloc(m, 1).1.value;
      assert g !in m.used;
      LinkGrows(m, f, i, g, Calloc(m, 1).0.used);
      GrowForest(View(m), View(Linked(Calloc(m, 1).0, f, i, g)), m.tables, f, i, g);
    }
  }

  // ----- Three levels down -----

  predicate Below(m: Mem, f: nat, idx: seq<nat>)
  {
    f in m.tables && |m.tables[f].path| + |idx| <= 3 && Indices(idx)
  }

  lemma PathStep(p: seq<nat>, idx: seq<nat>)
    requires idx != []
    ensures p + [idx[0]] + idx[1..] == p + idx
  {
  }

  /** Repeated get_next_level; three steps from a root reach a last-level table. */
  function Descend(m: Mem, f: nat, idx: seq<nat>): (r: Option<(Mem, nat)>)
    requires MemOk(m) && Below(m, f, idx)
    ensures r.Some? ==> MemOk(r.value.0) && r.value.1 in r.value.0.tables
    ensures r.Some? ==> r.value.0.tables[r.value.1].path == m.tables[f].path + idx
    decreases |idx|
  {
    if idx == [] then
      assert m.tables[f].path + idx == m.tables[f].path;
      Some((m, f))
    else
      match NextLevel(m, f, idx[0])
      case None => None
      case Some((m1, g)) =>
        PathStep(m.tables[f].path, idx);
        Descend(m1, g, idx[1..])
  }

  lemma {:induction false} DescendStep(m: Mem, f: nat, i: nat, rest: seq<nat>)
    requires MemOk(m) && Below(m, f, [i] + rest) && i < 512 && Indices(rest)
    ensures Descend(m, f, [i] + rest) ==
            match NextLevel(m, f, i) { case None => None case Some((m1, g)) => Descend(m1, g, rest) }
  {
    assert ([i] + rest)[1..] == rest;
  }

  /** Frames keep their places, frames in use stay in use, and their contents stay
      unless they are page tables. */
  ghost predicate Extends(m: Mem, m': Mem)
  {
    && m'.limit == m.limit && |m'.ram| == |m.ram| && m.used <= m'.used
    && (forall f :: f in m.tables ==> f in m'.tables && m'.tables[f] == m.tables[f])
    && (forall f :: f in m'.tables && f !in m.tables ==> f !in m.used)
    && (forall a :: 0 <= a < |m.ram| && a / FRAME in m.used && a / FRAME !in m.tables ==> m'.ram[a] == m.ram[a])
  }

  lemma ExtendsTransitive(m: Mem, m1: Mem, m2: Mem)
    requires Extends(m, m1) && Extends(m1, m2)
    ensures Extends(m, m2)
  {
    forall a | 0 <= a < |m.ram| && a / FRAME in m.used && a / FRAME !in m.tables
      ensures m2.ram[a] == m.ram[a]
    {
      assert a / FRAME !in m1.tables;
      assert m1.ram[a] == m.ram[a];
    }
  }

  lemma {:induction false} NextExtends(m: Mem, f: nat, i: nat)
    requires MemOk(m) && Inner(m, f, i) && NextLevel(m, f, i).Some?
    ensures Extends(m, NextLevel(m, f, i).value.0)
  {
    var m' := NextLevel(m, f, i).value.0;
    if !Present(Entry(m.ram, f, i)) {
      var g := NextLevel(m, f, i).value.1;
      assert g !in m.used;
      forall a | 0 <= a < |m.ram| && a / FRAME in m.used && a / FRAME !in m.tables
        ensures m'.ram[a] == m.ram[a]
      {
        assert a / FRAME != f && a / FRAME != g;
      }
    }
  }

  lemma {:induction false} DescendExtends(m: Mem, f: nat, idx: seq<nat>)
    requires MemOk(m) && Below(m, f, idx) && Descend(m, f, idx).Some?
    ensures Extends(m, Descend(m, f, idx).value.0)
    decreases |idx|
  {
    if idx != [] {
      var (m1, g) := NextLevel(m, f, idx[0]).value;
      NextExtends(m, f, idx[0]);
      DescendExtends(m1, g, idx[1..]);
      ExtendsTransitive(m, m1, Descend(m, f, idx).value.0);
    }
  }

  /** What one get_next_level does to the tree: nothing, or growth by one blank table. */
  lemma {:induction false} NextGrows(m: Mem, f: nat, i: nat)
    requires MemOk(m) && Inner(m, f, i) && NextLevel(m, f, i).Some?
    ensures
      var (m', g) := NextLevel(m, f, i).value;
      if Present(View(m)(f, i)) then m' == m && FrameOf(View(m)(f, i)) == g
      else Grows(View(m), View(m'), m.tables, f, i, g) && m'.tables == Grown(m.tables, f, i, g)
  {
    if !Present(View(m)(f, i)) {
      var g := NextLevel(m, f, i).value.1;
      assert g !in m.used;
      LinkGrows(m, f, i, g, Calloc(m, 1).0.used);
    }
  }

  lemma {:induction false} NextKeepsLeaf(m: Mem, f: nat, i: nat, h: nat, hdx: seq<nat>, j: nat)
    requires MemOk(m) && Inner(m, f, i) && NextLevel(m, f, i).Some?
    requires h in m.tables && |m.tables[h].path| + |hdx| == 3 && Indices(hdx) && j < 512
    ensures Leaf(View(NextLevel(m, f, i).value.0), h, hdx, j) == Leaf(View(m), h, hdx, j)
  {
    NextGrows(m, f, i);
    var (m', g) := NextLevel(m, f, i).value;
    if !Present(View(m)(f, i)) {
      GrowKeepsLeaf(View(m), View(m'), m.tables, f, i, g, h, hdx, j);
    }
  }

  /** Building the tables for one address changes no translation of any root. */
  lemma {:induction false} DescendKeepsLeaf(m: Mem, f: nat, idx: seq<nat>, h: nat, hdx: seq<nat>, j: nat)
    requires MemOk(m) && Below(m, f, idx) && Descend(m, f, idx).Some?
    requires h in m.tables && |m.tables[h].path| + |hdx| == 3 && Indices(hdx) && j < 512
    ensures Leaf(View(Descend(m, f, idx).value.0), h, hdx, j) == Leaf(View(m), h, hdx, j)
    decreases |idx|
  {
    if idx != [] {
      var (m1, g) := NextLevel(m, f, idx[0]).value;
      NextExtends(m, f, idx[0]);
      NextKeepsLeaf(m, f, idx[0], h, hdx, j);
      DescendKeepsLeaf(m1, g, idx[1..], h, hdx, j);
    }
  }

  lemma {:induction false} NextKeepsReach(m: Mem, f: nat, i: nat, h: nat, hdx: seq<nat>)
    requires MemOk(m) && Inner(m, f, i) && NextLevel(m, f, i).Some?
    requires Below(m, h, hdx) && Reach(View(m), h, hdx).Some?
    ensures Reach(View(NextLevel(m, f, i).value.0), h, hdx) == Reach(View(m), h, hdx)
  {
    NextGrows(m, f, i);
    var (m', g) := NextLevel(m, f, i).value;
    if !Present(View(m)(f, i)) {
      GrowKeepsReach(View(m), View(m'), m.tables, f, i, g, h, hdx);
    }
  }

  lemma {:induction false} DescendKeepsReach(m: Mem, f: nat, idx: seq<nat>, h: nat, hdx: seq<nat>)
    requires MemOk(m) && Below(m, f, idx) && Descend(m, f, idx).Some?
    requires Below(m, h, hdx) && Reach(View(m), h, hdx).Some?
    ensures Reach(View(Descend(m, f, idx).value.0), h, hdx) == Reach(View(m), h, hdx)
    decreases |idx|
  {
    if idx != [] {
      var (m1, g) := NextLevel(m, f, idx[0]).value;
      NextExtends(m, f, idx[0]);
      NextKeepsReach(m, f, idx[0], h, hdx);
      DescendKeepsReach(m1, g, idx[1..], h, hdx);
    }
  }

  /** The table Descend returns is the one the hardware walk reaches afterwards. */
  lemma {:induction false} DescendReaches(m: Mem, f: nat, idx: seq<nat>)
    requires MemOk(m) && Below(m, f, idx) && Descend(m, f, idx).Some?
    ensures Reach(View(Descend(m, f, idx).value.0), f, idx) == Some(Descend(m, f, idx).value.1)
    decreases |idx|
  {
    if idx != [] {
      var i := idx[0];
      var (m1, g) := NextLevel(m, f, i).value;
      var (m2, h) := Descend(m, f, idx).value;
      NextGrows(m, f, i);
      NextExtends(m, f, i);
      assert Reach(View(m1), g, []) == Some(g);
      assert [i][1..] == [];
      assert Reach(View(m1), f, [i]) == Some(g);
      DescendKeepsReach(m1, g, idx[1..], f, [i]);
      DescendReaches(m1, g, idx[1..]);
      ReachStep(View(m2), f, idx, g);
    }
  }

  lemma {:induction false} ReachStep(s: Store, f: nat, idx: seq<nat>, g: nat)
    requires idx != [] && Reach(s, f, [idx[0]]) == Some(g)
    ensures Reach(s, f, idx) == Reach(s, g, idx[1..])
  {
    assert [idx[0]][1..] == [];
  }

  /** Only the root the walk starts from can gain root-level entries. */
  lemma {:induction false} NextKeepsEntry(m: Mem, f: nat, i: nat, b: nat, j: nat)
    requires MemOk(m) && Inner(m, f, i) && NextLevel(m, f, i).Some?
    requires b in m.tables && j < 512 && (b != f || j != i || Present(View(m)(b, j)))
    ensures View(NextLevel(m, f, i).value.0)(b, j) == View(m)(b, j)
  {
    NextGrows(m, f, i);
  }

  lemma {:induction false} DescendKeepsRoot(m: Mem, f: nat, idx: seq<nat>, b: nat, j: nat)
    requires MemOk(m) && Below(m, f, idx) && Descend(m, f, idx).Some?
    requires Root(m.tables, b) && j < 512 && (b != f || Present(View(m)(b, j)))
    ensures View(Descend(m, f, idx).value.0)(b, j) == View(m)(b, j)
    decreases |idx|
  {
    if idx != [] {
      var (m1, g) := NextLevel(m, f, idx[0]).value;
      NextExtends(m, f, idx[0]);
      NextKeepsEntry(m, f, idx[0], b, j);
      assert b != g by { assert |m1.tables[g].path| > 0 && m1.tables[b].path == []; }
      DescendKeepsRoot(m1, g, idx[1..], b, j);
      assert Descend(m, f, idx) == Descend(m1, g, idx[1..]);
    }
  }

  // ----- Virtual addresses -----

  /** Bits 39..47, 30..38 and 21..29. */
  function Upper(va: nat): (idx: seq<nat>)
    ensures |idx| == 3 && Indices(idx)
  {
    [va / 0x80_0000_0000 % 512, va / 0x4000_0000 % 512, va / 0x20_0000 % 512]
  }

  /** Bits 12..20. */
  function Lower(va: nat): (i: nat)
    ensures i < 512
  {
    va / FRAME % 512
  }

  /** The page a virtual address is in: bits 12..47. */
  function Page(va: nat): nat { va / FRAME % 0x10_0000_0000 }

  lemma Digit(x: nat, k: nat)
    requires k == 0x800_0000 || k == 0x4_0000 || k == 512
    ensures x % (512 * k) == 512 * (x / 512 % k) + x % 512
  {
  }

  lemma PageFields(va: nat)
    ensures Page(va) == 0x800_0000 * Upper(va)[0] + 0x4_0000 * Upper(va)[1] + 512 * Upper(va)[2] + Lower(va)
  {
    var p := va / FRAME;
    var q := p / 512;
    var r := q / 512;
    assert va / 0x20_0000 == q && va / 0x4000_0000 == r && va / 0x80_0000_0000 == r / 512;
    Digit(p, 0x800_0000);
    Digit(q, 0x4_0000);
    Digit(r, 512);
  }

  /** The four indices and the page number determine each other. */
  lemma SamePage(va: nat, vb: nat)
    ensures Page(va) == Page(vb) <==> Upper(va) == Upper(vb) && Lower(va) == Lower(vb)
  {
    PageFields(va);
    PageFields(vb);
    var a, b := Upper(va), Upper(vb);
    if Page(va) == Page(vb) {
      assert a[0] == b[0] && a[1] == b[1] && a[2] == b[2];
    }
  }

  predicate LowerHalf(va: nat) { Upper(va)[0] < 256 }

  /** The last-level entry for va under a root: the whole translation, flags included. */
  function EntryFor(m: Mem, root: nat, va: nat): nat
  {
    Leaf(View(m), root, Upper(va), Lower(va))
  }

  // ----- vmm_map_page, vmm_unmap_page, virt_to_phys -----

  /** Build the tables for va and store w in its entry. */
  function SetEntry(m: Mem, root: nat, va: nat, w: nat): (r: Option<Mem>)
    requires MemOk(m) && Root(m.tables, root) && w < WORD
    ensures r.Some? ==> MemOk(r.value) && Extends(m, r.value)
  {
    match Descend(m, root, Upper(va))
    case None => None
    case Some((m1, g)) =>
      DescendExtends(m, root, Upper(va));
      StoreOk(m1, g, Lower(va), w);
      StoreExtends(m, m1, g, Lower(va), w);
      Some(Stored(m1, g, Lower(va), w))
  }

  function Stored(m: Mem, g: nat, i: nat, w: nat): Mem
    requires FRAME * g + FRAME <= |m.ram| && i < 512 && w < WORD
  {
    m.(ram := PutWord(m.ram, FRAME * g + 8 * i, w))
  }

  lemma StoreSameBut(m: Mem, g: nat, i: nat, w: nat)
    requires FRAME * g + FRAME <= |m.ram| && i < 512 && w < WORD
    ensures SameBut(View(m), View(Stored(m, g, i, w)), m.tables, g, i)
    ensures View(Stored(m, g, i, w))(g, i) == w
  {
    forall h, j | h in m.tables && 0 <= j < 512 && !(h == g && j == i)
      ensures View(Stored(m, g, i, w))(h, j) == View(m)(h, j)
    {
      PutEntry(m.ram, g, i, w, h, j);
    }
    PutEntry(m.ram, g, i, w, g, i);
  }

  lemma StoreOk(m: Mem, g: nat, i: nat, w: nat)
    requires MemOk(m) && g in m.tables && |m.tables[g].path| == 3 && i < 512 && w < WORD
    ensures MemOk(Stored(m, g, i, w))
  {
    StoreSameBut(m, g, i, w);
    WriteForest(View(m), View(Stored(m, g, i, w)), m.tables, g, i);
  }

  lemma StoreExtends(m: Mem, m1: Mem, g: nat, i: nat, w: nat)
    requires Extends(m, m1) && FRAME * g + FRAME <= |m1.ram| && i < 512 && w < WORD && g in m1.tables
    ensures Extends(m, Stored(m1, g, i, w))
  {
    var m2 := Stored(m1, g, i, w);
    forall a | 0 <= a < |m.ram| && a / FRAME in m.used && a / FRAME !in m.tables
      ensures m2.ram[a] == m.ram[a]
    {
      assert a / FRAME != g;
    }
  }

  lemma StoreLeaf(m: Mem, g: nat, i: nat, w: nat, h: nat, idx: seq<nat>, j: nat)
    requires MemOk(m) && g in m.tables && |m.tables[g].path| == 3 && i < 512 && w < WORD
    requires h in m.tables && |m.tables[h].path| + |idx| == 3 && Indices(idx) && j < 512
    ensures Leaf(View(Stored(m, g, i, w)), h, idx, j) ==
            if Reach(View(m), h, idx) == Some(g) && j == i then w else Leaf(View(m), h, idx, j)
  {
    var s, s' := View(m), View(Stored(m, g, i, w));
    StoreSameBut(m, g, i, w);
    WriteKeepsReach(s, s', m.tables, g, i, h, idx);
    ReachPlaced(s, m.tables, h, idx);
  }

  /** The 4-level table is a flat map: storing w at va sets the entry of exactly one page,
      in the roots that share va's root-level entry, and no other translation. */
  lemma SetEntryFlat(m: Mem, a: nat, va: nat, w: nat, b: nat, vb: nat)
    requires MemOk(m) && Root(m.tables, a) && Root(m.tables, b) && w < WORD
    requires SetEntry(m, a, va, w).Some?
    ensures EntryFor(SetEntry(m, a, va, w).value, b, vb) ==
            if Page(va) == Page(vb) && Shares(View(m), a, b, Upper(va)[0]) then w else EntryFor(m, b, vb)
  {
    var (m1, g) := Descend(m, a, Upper(va)).value;
    DescendExtends(m, a, Upper(va));
    DescendReaches(m, a, Upper(va));
    DescendKeepsLeaf(m, a, Upper(va), b, Upper(vb), Lower(vb));
    StoreLeaf(m1, g, Lower(va), w, b, Upper(vb), Lower(vb));
    MeetOnlyShared(View(m1), m1.tables, a, b, Upper(va), Upper(vb));
    SharesKept(m, a, b, Upper(va));
    SamePage(va, vb);
  }

  /** Building tables below one root neither starts nor ends sharing with another. */
  lemma SharesKept(m: Mem, a: nat, b: nat, idx: seq<nat>)
    requires MemOk(m) && Root(m.tables, a) && Root(m.tables, b) && |idx| == 3 && Indices(idx)
    requires Descend(m, a, idx).Some?
    ensures Shares(View(Descend(m, a, idx).value.0), a, b, idx[0]) == Shares(View(m), a, b, idx[0])
  {
    var i := idx[0];
    var m1 := Descend(m, a, idx).value.0;
    if a != b {
      DescendKeepsRoot(m, a, idx, b, i);
      if Present(View(m)(a, i)) {
        DescendKeepsRoot(m, a, idx, a, i);
      } else {
        FreshRootEntry(m, a, idx);
        if Present(View(m)(b, i)) { assert Child(m.tables, b, i, FrameOf(View(m)(b, i))); }
      }
    }
  }

  /** A root-level entry made by a walk points at a table that was not there before. */
  lemma FreshRootEntry(m: Mem, a: nat, idx: seq<nat>)
    requires MemOk(m) && Root(m.tables, a) && |idx| == 3 && Indices(idx)
    requires Descend(m, a, idx).Some? && !Present(View(m)(a, idx[0]))
    ensures FrameOf(View(Descend(m, a, idx).value.0)(a, idx[0])) !in m.tables
  {
    var i := idx[0];
    var (m1, g) := NextLevel(m, a, i).value;
    NextGrows(m, a, i);
    NextExtends(m, a, i);
    DescendKeepsRoot(m1, g, idx[1..], a, i);
  }
}
