/** The operations of src/memory/vmm.c on whole pages and whole address spaces. */
module AddressSpaces {
  import opened Words
  import opened PhysicalMemory
  import opened FrameAllocator
  import opened RadixTree
  import opened PageTables

  // ----- vmm_map_page and virt_to_phys -----

  lemma EntryWord(pa: nat, flags: nat)
    requires pa < WORD && flags < WORD
    ensures BitOr(pa, flags) < WORD
  {
    Powers();
    OrBound(pa, flags, 64);
  }

  function MapPage(m: Mem, root: nat, pa: nat, va: nat, flags: nat): (r: Option<Mem>)
    requires MemOk(m) && Root(m.tables, root) && pa < WORD && flags < WORD
    ensures r.Some? ==> MemOk(r.value) && Extends(m, r.value)
  {
    EntryWord(pa, flags);
    SetEntry(m, root, va, BitOr(pa, flags))
  }

  function UnmapPage(m: Mem, root: nat, va: nat): (r: Option<Mem>)
    requires MemOk(m) && Root(m.tables, root)
    ensures r.Some? ==> MemOk(r.value) && Extends(m, r.value)
  {
    SetEntry(m, root, va, 0)
  }

  /** virt_to_phys also builds missing tables. */
  function VirtToPhys(m: Mem, root: nat, va: nat): (r: Option<(Mem, nat)>)
    requires MemOk(m) && Root(m.tables, root)
  {
    match Descend(m, root, Upper(va))
    case None => None
    case Some((m1, g)) => Some((m1, FRAME * FrameOf(Entry(m1.ram, g, Lower(va)))))
  }

  lemma {:induction false} OrFrame(pa: nat, flags: nat)
    ensures FrameOf(BitOr(pa, flags)) == BitOr(FrameOf(pa), FrameOf(flags))
  {
    Powers();
    var x, y := pa / FRAME, flags / FRAME;
    var p40 := 0x100_0000_0000;
    var low := BitOr(pa % FRAME, flags % FRAME);
    OrJoin(x, pa % FRAME, y, flags % FRAME, 12, pa, flags);
    OrBound(pa % FRAME, flags % FRAME, 12);
    OrJoin(x / p40, x % p40, y / p40, y % p40, 40, x, y);
    OrBound(x % p40, y % p40, 40);
    FieldOfSum(BitOr(pa, flags), BitOr(x, y), low, BitOr(x / p40, y / p40), BitOr(x % p40, y % p40));
  }

  lemma FieldOfSum(w: nat, x: nat, low: nat, h: nat, f: nat)
    requires w == FRAME * x + low && low < FRAME && x == 0x100_0000_0000 * h + f && f < 0x100_0000_0000
    ensures FrameOf(w) == f
  {
    assert w / FRAME == x;
  }

  lemma ExactField(pa: nat, o: nat)
    requires o < 0x100_0000_0000
    ensures FRAME * o == pa <==> pa % FRAME == 0 && pa < 0x10_0000_0000_0000 && o == pa / FRAME
    ensures pa < 0x10_0000_0000_0000 ==> FrameOf(pa) == pa / FRAME
  {
  }

  /** The mapped page translates to pa exactly when pa is frame-aligned and below 2^52 and the
      flags set no address bit that pa does not have. */
  lemma {:induction false} TranslatesBack(pa: nat, flags: nat)
    ensures FRAME * FrameOf(BitOr(pa, flags)) == pa <==>
            pa % FRAME == 0 && pa < 0x10_0000_0000_0000 && BitOr(pa / FRAME, FrameOf(flags)) == pa / FRAME
  {
    Powers();
    OrFrame(pa, flags);
    OrBound(FrameOf(pa), FrameOf(flags), 40);
    ExactField(pa, FrameOf(BitOr(pa, flags)));
  }

  /** Looking up a page changes no translation and returns the address bits of its entry. */
  lemma LookupFlat(m: Mem, a: nat, va: nat, b: nat, vb: nat)
    requires MemOk(m) && Root(m.tables, a) && Root(m.tables, b) && VirtToPhys(m, a, va).Some?
    ensures VirtToPhys(m, a, va).value.1 == FRAME * FrameOf(EntryFor(m, a, va))
    ensures EntryFor(VirtToPhys(m, a, va).value.0, b, vb) == EntryFor(m, b, vb)
  {
    DescendReaches(m, a, Upper(va));
    DescendKeepsLeaf(m, a, Upper(va), a, Upper(va), Lower(va));
    DescendKeepsLeaf(m, a, Upper(va), b, Upper(vb), Lower(vb));
  }

  /** Map then look up returns the mapped address, under the condition of TranslatesBack. */
  lemma MapThenLookup(m: Mem, root: nat, pa: nat, va: nat, flags: nat)
    requires MemOk(m) && Root(m.tables, root) && pa < WORD && flags < WORD
    requires MapPage(m, root, pa, va, flags).Some?
    requires VirtToPhys(MapPage(m, root, pa, va, flags).value, root, va).Some?
    ensures VirtToPhys(MapPage(m, root, pa, va, flags).value, root, va).value.1 == pa <==>
            pa % FRAME == 0 && pa < 0x10_0000_0000_0000 && BitOr(pa / FRAME, FrameOf(flags)) == pa / FRAME
  {
    var m1 := MapPage(m, root, pa, va, flags).value;
    EntryWord(pa, flags);
    SetEntryFlat(m, root, va, BitOr(pa, flags), root, va);
    LookupFlat(m1, root, va, root, va);
    TranslatesBack(pa, flags);
  }

  /** An operation on a lower-half address of one root changes no other root and nothing in
      the upper half, and in its own root only the page it names. */
  lemma LowerHalfIsolated(m: Mem, a: nat, va: nat, w: nat, b: nat, vb: nat)
    requires MemOk(m) && Root(m.tables, a) && Root(m.tables, b) && w < WORD
    requires SetEntry(m, a, va, w).Some? && LowerHalf(va)
    requires a != b || Page(va) != Page(vb)
    ensures EntryFor(SetEntry(m, a, va, w).value, b, vb) == EntryFor(m, b, vb)
  {
    SetEntryFlat(m, a, va, w, b, vb);
  }

  // ----- vmm_map_pages -----

  /** One turn of a mapping loop: the entry word w for the page of va. */
  datatype Job = Job(va: nat, w: nat)

  predicate Words64(js: seq<Job>) { forall k :: 0 <= k < |js| ==> js[k].w < WORD }

  function StoreAll(m: Mem, root: nat, js: seq<Job>): (r: Option<Mem>)
    requires MemOk(m) && Root(m.tables, root) && Words64(js)
    ensures r.Some? ==> MemOk(r.value) && Extends(m, r.value)
    decreases |js|
  {
    if js == [] then Some(m)
    else
      var last := js[|js| - 1];
      match StoreAll(m, root, js[..|js| - 1])
      case None => None
      case Some(m1) =>
        var r := SetEntry(m1, root, last.va, last.w);
        if r.Some? then ExtendsTransitive(m, m1, r.value); r else None
  }

  /** Pages the jobs do not name keep their entries, in this root and in any other. */
  lemma {:induction false} StoreAllKeeps(m: Mem, root: nat, js: seq<Job>, b: nat, vb: nat)
    requires MemOk(m) && Root(m.tables, root) && Root(m.tables, b) && Words64(js)
    requires StoreAll(m, root, js).Some?
    requires forall k :: 0 <= k < |js| ==> Page(js[k].va) != Page(vb) || (b != root && LowerHalf(js[k].va))
    ensures EntryFor(StoreAll(m, root, js).value, b, vb) == EntryFor(m, b, vb)
    decreases |js|
  {
    if js != [] {
      var front, last := js[..|js| - 1], js[|js| - 1];
      StoreAllKeeps(m, root, front, b, vb);
      SetEntryFlat(StoreAll(m, root, front).value, root, last.va, last.w, b, vb);
    }
  }

  /** The last job that names a page decides its entry. */
  lemma {:induction false} StoreAllSets(m: Mem, root: nat, js: seq<Job>, k: nat, vb: nat)
    requires MemOk(m) && Root(m.tables, root) && Words64(js)
    requires StoreAll(m, root, js).Some? && k < |js| && Page(js[k].va) == Page(vb)
    requires forall j :: k < j < |js| ==> Page(js[j].va) != Page(vb)
    ensures EntryFor(StoreAll(m, root, js).value, root, vb) == js[k].w
    decreases |js|
  {
    var front, last := js[..|js| - 1], js[|js| - 1];
    var m1 := StoreAll(m, root, front).value;
    assert StoreAll(m, root, js) == SetEntry(m1, root, last.va, last.w);
    SetEntryFlat(m1, root, last.va, last.w, root, vb);
    if k < |front| { StoreAllSets(m, root, front, k, vb); }
  }

  /** 64-bit addition of k frames. */
  function Plus(x: nat, k: nat): nat { (x + FRAME * k) % WORD }

  function Jobs(pa: nat, va: nat, flags: nat, n: nat): (js: seq<Job>)
    requires flags < WORD
    ensures |js| == n && Words64(js)
    ensures forall k :: 0 <= k < n ==> js[k] == Job(Plus(va, k), BitOr(Plus(pa, k), flags))
  {
    var js := seq(n, k requires 0 <= k < n => Job(Plus(va, k), BitOr(Plus(pa, k), flags)));
    assert forall k :: 0 <= k < n ==> js[k].w < WORD by {
      forall k | 0 <= k < n { EntryWord(Plus(pa, k), flags); }
    }
    js
  }

  function MapPages(m: Mem, root: nat, pa: nat, va: nat, flags: nat, n: nat): (r: Option<Mem>)
    requires MemOk(m) && Root(m.tables, root) && flags < WORD
    ensures r.Some? ==> MemOk(r.value) && Extends(m, r.value)
  {
    StoreAll(m, root, Jobs(pa, va, flags, n))
  }

  lemma WrapKeepsPage(x: nat)
    ensures Page(x % WORD) == Page(x)
  {
    var q, y := x / WORD, (x % WORD) / FRAME;
    assert x / FRAME == 0x10_0000_0000 * (0x1_0000 * q) + y;
    DropMultiple(y, 0x1_0000 * q);
  }

  lemma DropMultiple(y: nat, c: nat)
    ensures (0x10_0000_0000 * c + y) % 0x10_0000_0000 == y % 0x10_0000_0000
  {
  }

  /** Page number k after va, counted in the 36-bit page space. */
  lemma PlusPage(va: nat, k: nat)
    ensures Page(Plus(va, k)) == (va / FRAME + k) % 0x10_0000_0000
  {
    assert (va + FRAME * k) / FRAME == va / FRAME + k;
    WrapKeepsPage(va + FRAME * k);
  }

  lemma PlusDistinct(va: nat, j: nat, k: nat)
    requires j < k && k - j < 0x10_0000_0000
    ensures Page(Plus(va, j)) != Page(Plus(va, k))
  {
    PlusPage(va, j);
    PlusPage(va, k);
  }

  /** Every page of the range gets its own frame, for ranges that do not wrap onto themselves. */
  lemma MapPagesSets(m: Mem, root: nat, pa: nat, va: nat, flags: nat, n: nat, k: nat)
    requires MemOk(m) && Root(m.tables, root) && flags < WORD
    requires MapPages(m, root, pa, va, flags, n).Some? && k < n <= 0x10_0000_0000
    ensures EntryFor(MapPages(m, root, pa, va, flags, n).value, root, Plus(va, k)) == BitOr(Plus(pa, k), flags)
  {
    var js := Jobs(pa, va, flags, n);
    forall j | k < j < n ensures Page(js[j].va) != Page(js[k].va) {
      PlusDistinct(va, k, j);
    }
    StoreAllSets(m, root, js, k, Plus(va, k));
  }

  /** No other page of this root changes; in the lower half no page of any other root. */
  lemma MapPagesKeeps(m: Mem, root: nat, pa: nat, va: nat, flags: nat, n: nat, b: nat, vb: nat)
    requires MemOk(m) && Root(m.tables, root) && Root(m.tables, b) && flags < WORD
    requires MapPages(m, root, pa, va, flags, n).Some?
    requires forall k :: 0 <= k < n ==> Page(Plus(va, k)) != Page(vb) || (b != root && LowerHalf(Plus(va, k)))
    ensures EntryFor(MapPages(m, root, pa, va, flags, n).value, b, vb) == EntryFor(m, b, vb)
  {
    StoreAllKeeps(m, root, Jobs(pa, va, flags, n), b, vb);
  }
}
