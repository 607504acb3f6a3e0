/** The frame allocator over whole runs, and its set-up from the boot memory map. */
module FrameAllocatorRuns {
  import opened Words
  import opened FrameAllocator

  // ----- Runs of pmm_malloc and pmm_free -----

  datatype Allocation = Allocation(base: nat, count: nat)
  datatype Request = Allocate(count: nat) | Release(index: nat)
  datatype Pool = Pool(used: set<nat>, limit: nat, live: seq<Allocation>)

  function Frames(a: Allocation): set<nat> { Run(a.base, a.count) }

  /** A request; releasing an allocation that is not live is not a request the kernel makes. */
  function Serve(p: Pool, q: Request): Pool
  {
    match q
    case Allocate(n) =>
      (match FirstFit(p.used, p.limit, n)
       case None => p
       case Some(b) => p.(used := p.used + Run(b, n), live := p.live + [Allocation(b, n)]))
    case Release(i) =>
      if i < |p.live| then
        p.(used := p.used - Frames(p.live[i]), live := p.live[..i] + p.live[i + 1..])
      else p
  }

  function ServeAll(p: Pool, qs: seq<Request>): Pool
    decreases |qs|
  {
    if qs == [] then p else ServeAll(Serve(p, qs[0]), qs[1..])
  }

  predicate Has(a: Allocation, f: nat) { a.base <= f < a.base + a.count }

  ghost predicate Held(live: seq<Allocation>, f: nat)
  {
    exists i :: 0 <= i < |live| && Has(live[i], f)
  }

  ghost predicate Placed(a: Allocation, limit: nat, reserved: set<nat>)
  {
    forall f: nat :: Has(a, f) ==> f !in reserved && 1 <= f < limit
  }

  ghost predicate NoOverlap(a: Allocation, b: Allocation)
  {
    forall f: nat :: Has(a, f) ==> !Has(b, f)
  }

  /** No frame is in two live allocations, and none is frame 0 or a reserved frame. */
  ghost predicate Apart(live: seq<Allocation>, limit: nat, reserved: set<nat>)
  {
    && (forall i :: 0 <= i < |live| ==> Placed(live[i], limit, reserved))
    && (forall i, j :: 0 <= i < j < |live| ==> NoOverlap(live[i], live[j]))
  }

  /** The live allocations and the frames reserved at start-up partition the used frames. */
  ghost predicate Partitioned(p: Pool, reserved: set<nat>)
  {
    && Apart(p.live, p.limit, reserved)
    && forall f: nat :: f in p.used <==> f in reserved || Held(p.live, f)
  }

  lemma HeldAppend(live: seq<Allocation>, a: Allocation, f: nat)
    ensures Held(live + [a], f) <==> Held(live, f) || Has(a, f)
  {
    var q := live + [a];
    if Held(live, f) {
      var i :| 0 <= i < |live| && Has(live[i], f);
      assert Has(q[i], f);
    }
    if Has(a, f) { assert Has(q[|live|], f); }
  }

  lemma {:induction false} AllocateKeeps(p: Pool, n: nat, reserved: set<nat>)
    requires Partitioned(p, reserved)
    ensures Partitioned(Serve(p, Allocate(n)), reserved)
  {
    var r := FirstFit(p.used, p.limit, n);
    if r.Some? {
      var a := Allocation(r.value, n);
      assert Placed(a, p.limit, reserved);
      forall i | 0 <= i < |p.live| ensures NoOverlap(p.live[i], a) {
        forall f: nat | Has(p.live[i], f) ensures !Has(a, f) {
          assert Held(p.live, f);
        }
      }
      forall f { HeldAppend(p.live, a, f); }
    }
  }

  lemma {:induction false} HeldRemove(live: seq<Allocation>, limit: nat, reserved: set<nat>, k: nat, f: nat)
    requires Apart(live, limit, reserved) && k < |live|
    ensures Held(live[..k] + live[k + 1..], f) <==> Held(live, f) && !Has(live[k], f)
  {
    var rest := live[..k] + live[k + 1..];
    assert forall i :: 0 <= i < |rest| ==> rest[i] == live[if i < k then i else i + 1];
    if Held(rest, f) {
      var i :| 0 <= i < |rest| && Has(rest[i], f);
      var j := if i < k then i else i + 1;
      assert Has(live[j], f);
      assert NoOverlap(live[if j < k then j else k], live[if j < k then k else j]);
    }
    if Held(live, f) && !Has(live[k], f) {
      var i :| 0 <= i < |live| && Has(live[i], f);
      assert Has(rest[if i < k then i else i - 1], f);
    }
  }

  lemma {:induction false} ReleaseKeeps(p: Pool, k: nat, reserved: set<nat>)
    requires Partitioned(p, reserved) && k < |p.live|
    ensures Partitioned(Serve(p, Release(k)), reserved)
  {
    assert Placed(p.live[k], p.limit, reserved);
    forall f: nat { HeldRemove(p.live, p.limit, reserved, k, f); }
    RestApart(p.live, p.limit, reserved, k);
  }

  lemma RestApart(live: seq<Allocation>, limit: nat, reserved: set<nat>, k: nat)
    requires Apart(live, limit, reserved) && k < |live|
    ensures Apart(live[..k] + live[k + 1..], limit, reserved)
  {
    var rest := live[..k] + live[k + 1..];
    assert forall i :: 0 <= i < |rest| ==> rest[i] == live[if i < k then i else i + 1];
  }

  /** Over every run, live allocations are pairwise disjoint, avoid frame 0 and the
      reserved frames, and nothing else is marked used. */
  lemma {:induction false} RunsPartition(p: Pool, qs: seq<Request>, reserved: set<nat>)
    requires Partitioned(p, reserved)
    ensures Partitioned(ServeAll(p, qs), reserved)
    decreases |qs|
  {
    if qs != [] {
      match qs[0] {
        case Allocate(n) => AllocateKeeps(p, n, reserved);
        case Release(k) => if k < |p.live| { ReleaseKeeps(p, k, reserved); }
      }
      RunsPartition(Serve(p, qs[0]), qs[1..], reserved);
    }
  }

  /** Releasing what was just allocated restores the pool, for every request size. */
  lemma ReleaseUndoesAllocate(p: Pool, n: nat)
    requires FirstFit(p.used, p.limit, n).Some?
    ensures ServeAll(p, [Allocate(n), Release(|p.live|)]) == p
  {
    var q := Serve(p, Allocate(n));
    var b := FirstFit(p.used, p.limit, n).value;
    assert q.used - Run(b, n) == p.used;
    assert q.live[..|p.live|] + q.live[|p.live| + 1..] == p.live;
    assert Serve(q, Release(|p.live|)) == p;
    assert [Allocate(n), Release(|p.live|)][1..] == [Release(|p.live|)];
    assert [Release(|p.live|)][1..] == [];
    assert ServeAll(q, [Release(|p.live|)]) == ServeAll(p, []);
  }

  // ----- pmm_init -----

  /** A memory-map entry of the boot protocol; kind 0 is usable memory. */
  datatype MapEntry = MapEntry(base: nat, length: nat, kind: nat) {
    predicate Usable() { kind == 0 }
    function Top(): nat { base + length }
    predicate Holds(f: nat) { base <= FRAME * f < base + length }
  }

  function Max(a: nat, b: nat): nat { if a > b then a else b }

  /** The end of the highest usable entry. */
  function Highest(es: seq<MapEntry>): (h: nat)
    ensures forall i :: 0 <= i < |es| && es[i].Usable() ==> es[i].Top() <= h
  {
    if es == [] then 0
    else
      var h := Highest(es[..|es| - 1]);
      var e := es[|es| - 1];
      if e.Usable() then Max(h, e.Top()) else h
  }

  lemma {:induction false} HighestIsTop(es: seq<MapEntry>) returns (i: nat)
    requires Highest(es) != 0
    ensures i < |es| && es[i].Usable() && es[i].Top() == Highest(es)
  {
    var n := |es| - 1;
    var e := es[n];
    if e.Usable() && e.Top() == Highest(es) {
      i := n;
    } else {
      i := HighestIsTop(es[..n]);
    }
  }

  function BitmapBytes(limit: nat): nat { AlignUp(limit / 8, FRAME) }

  /** The bitmap has a bit for every frame below the limit. */
  predicate Covers(limit: nat) { limit <= 8 * BitmapBytes(limit) }

  /** The size is rounded down to whole bytes before it is rounded up to whole frames, so
      the last few bits are lost exactly when that byte count is already a multiple of 4096. */
  lemma CoversExactly(limit: nat)
    ensures Covers(limit) <==> limit % 8 == 0 || (limit / 8) % FRAME != 0
  {
    var b := limit / 8;
    var r := AlignUp(b, FRAME);
    if b % FRAME == 0 {
      assert r == b;
    } else {
      assert r >= b + 1;
    }
  }

  lemma SmallMemoryUncovered()
    ensures !Covers(32769)
  {
    CoversExactly(32769);
  }

  /** The entry the bitmap is carved from. */
  function CarveIndex(es: seq<MapEntry>, bytes: nat): (r: Option<nat>)
    ensures r.Some? ==> r.value < |es| && es[r.value].Usable() && es[r.value].length >= bytes
    ensures r.Some? ==> forall i :: 0 <= i < r.value ==> !(es[i].Usable() && es[i].length >= bytes)
    ensures r.None? ==> forall i :: 0 <= i < |es| ==> !(es[i].Usable() && es[i].length >= bytes)
  {
    if es == [] then None
    else
      var r := CarveIndex(es[..|es| - 1], bytes);
      var e := es[|es| - 1];
      if r.Some? then r
      else if e.Usable() && e.length >= bytes then Some(|es| - 1)
      else None
  }

  function Carved(es: seq<MapEntry>, k: nat, bytes: nat): seq<MapEntry>
    requires k < |es| && es[k].length >= bytes
  {
    es[k := MapEntry(es[k].base + bytes, es[k].length - bytes, es[k].kind)]
  }

  ghost predicate InUsable(es: seq<MapEntry>, f: nat)
  {
    exists i :: 0 <= i < |es| && es[i].Usable() && es[i].Holds(f)
  }

  ghost predicate Aligned(es: seq<MapEntry>)
  {
    forall i :: 0 <= i < |es| && es[i].Usable() ==> es[i].base % FRAME == 0 && es[i].length % FRAME == 0
  }

  /** What the boot protocol promises about usable entries: frame-aligned, not overlapping. */
  ghost predicate WellFormedMap(es: seq<MapEntry>)
  {
    && Aligned(es)
    && forall i, j :: 0 <= i < |es| && 0 <= j < |es| && i != j && es[i].Usable() && es[j].Usable() ==>
         es[i].Top() <= es[j].base || es[j].Top() <= es[i].base
  }

  /** Carving takes exactly the bitmap's own storage out of the usable frames. */
  lemma CarvedFrames(es: seq<MapEntry>, k: nat, bytes: nat, f: nat)
    requires WellFormedMap(es) && k < |es| && es[k].Usable() && es[k].length >= bytes
    ensures InUsable(Carved(es, k, bytes), f) <==>
            InUsable(es, f) && !(es[k].base <= FRAME * f < es[k].base + bytes)
  {
    var c := Carved(es, k, bytes);
    if InUsable(c, f) {
      var i :| 0 <= i < |c| && c[i].Usable() && c[i].Holds(f);
      assert es[i].Usable() && es[i].Holds(f);
    }
    if InUsable(es, f) && !(es[k].base <= FRAME * f < es[k].base + bytes) {
      var i :| 0 <= i < |es| && es[i].Usable() && es[i].Holds(f);
      assert c[i].Usable() && c[i].Holds(f);
    }
  }

  /** The first loop of pmm_init. */
  method FindHighest(es: seq<MapEntry>) returns (highest: nat)
    ensures highest == Highest(es)
  {
    highest := 0;
    for i := 0 to |es|
      invariant highest == Highest(es[..i])
    {
      assert es[..i + 1][..i] == es[..i];
      if es[i].Usable() {
        var top := es[i].base + es[i].length;
        if top > highest {
          highest := top;
        }
      }
    }
    assert es[..|es|] == es;
  }

  /** The second loop of pmm_init: where the bitmap is placed. */
  method FindCarve(es: seq<MapEntry>, bytes: nat) returns (r: Option<nat>)
    ensures r == CarveIndex(es, bytes)
  {
    for i := 0 to |es|
      invariant forall j :: 0 <= j < i ==> !(es[j].Usable() && es[j].length >= bytes)
    {
      if es[i].Usable() && es[i].length >= bytes {
        return Some(i);
      }
    }
    return None;
  }

  /** The inner loop of pmm_init's last pass, over one usable entry. */
  method FreeEntry(pmm: Pmm, e: MapEntry)
    requires pmm.Valid() && FitsBelow(e, pmm.bitmap.Length)
    modifies pmm.bitmap
    ensures forall g: nat :: Bit(pmm.bitmap[..], g) == (!e.Holds(g) && old(Bit(pmm.bitmap[..], g)))
  {
    var t := 0;
    while t < e.length
      invariant t <= e.length && t % FRAME == 0
      invariant forall g: nat :: Bit(pmm.bitmap[..], g) == (!Before(e, t, g) && old(Bit(pmm.bitmap[..], g)))
    {
      var f := (e.base + t) / FRAME;
      BeforeNext(e, t, f);
      FreeOne(pmm, f);
      t := t + FRAME;
    }
  }

  /** Frame g is among those passed after t bytes of the entry. */
  predicate Before(e: MapEntry, t: nat, g: nat) { e.base <= FRAME * g < e.base + t }

  lemma BeforeNext(e: MapEntry, t: nat, f: nat)
    requires e.base % FRAME == 0 && t % FRAME == 0 && f == (e.base + t) / FRAME
    ensures forall g: nat :: Before(e, t + FRAME, g) <==> Before(e, t, g) || g == f
  {
    assert FRAME * f == e.base + t;
    forall g: nat ensures Before(e, t + FRAME, g) <==> Before(e, t, g) || g == f {
      if g < f { assert FRAME * g + FRAME <= FRAME * f; }
      if g > f { assert FRAME * f + FRAME <= FRAME * g; }
    }
  }

  method FreeOne(pmm: Pmm, f: nat)
    requires pmm.Valid() && f < 8 * pmm.bitmap.Length
    modifies pmm.bitmap
    ensures forall g: nat :: Bit(pmm.bitmap[..], g) == (g != f && old(Bit(pmm.bitmap[..], g)))
  {
    pmm.Free(f, 1);
  }

  /** The last pass of pmm_init: clear the bits of every usable entry. */
  method FreeUsable(pmm: Pmm, es: seq<MapEntry>)
    requires pmm.Valid()
    requires forall i :: 0 <= i < |es| && es[i].Usable() ==> FitsBelow(es[i], pmm.bitmap.Length)
    modifies pmm.bitmap
    ensures forall g: nat :: Bit(pmm.bitmap[..], g) == (!InUsable(es, g) && old(Bit(pmm.bitmap[..], g)))
  {
    for i := 0 to |es|
      invariant forall g: nat ::
        Bit(pmm.bitmap[..], g) == (!InUsable(es[..i], g) && old(Bit(pmm.bitmap[..], g)))
    {
      ghost var before := pmm.bitmap[..];
      if es[i].Usable() {
        FreeEntry(pmm, es[i]);
      }
      forall g: nat { UsablePrefix(es, i, g); }
    }
    assert es[..|es|] == es;
  }

  lemma UsablePrefix(es: seq<MapEntry>, i: nat, g: nat)
    requires i < |es|
    ensures InUsable(es[..i + 1], g) <==> InUsable(es[..i], g) || (es[i].Usable() && es[i].Holds(g))
  {
    var a, b := es[..i], es[..i + 1];
    if InUsable(a, g) {
      var k :| 0 <= k < |a| && a[k].Usable() && a[k].Holds(g);
      assert b[k] == a[k];
    }
    if InUsable(b, g) {
      var k :| 0 <= k < |b| && b[k].Usable() && b[k].Holds(g);
      assert k < i ==> a[k] == b[k];
    }
    if es[i].Usable() && es[i].Holds(g) { assert b[i] == es[i]; }
  }

  lemma CarvedAll(es: seq<MapEntry>, k: nat, bytes: nat)
    requires WellFormedMap(es) && k < |es| && es[k].Usable() && es[k].length >= bytes
    ensures forall f: nat :: InUsable(Carved(es, k, bytes), f) <==>
              InUsable(es, f) && !(es[k].base <= FRAME * f < es[k].base + bytes)
  {
    forall f: nat { CarvedFrames(es, k, bytes, f); }
  }

  lemma {:induction false} HighestAligned(es: seq<MapEntry>)
    requires Aligned(es)
    ensures Highest(es) % FRAME == 0
  {
    if es != [] {
      HighestAligned(es[..|es| - 1]);
    }
  }

  predicate FitsBelow(e: MapEntry, bytes: nat)
  {
    e.base % FRAME == 0 && e.length % FRAME == 0 && e.Top() <= FRAME * (8 * bytes)
  }

  lemma CarvedEntryFits(e: MapEntry, bytes: nat)
    requires FitsBelow(e, bytes) && bytes % FRAME == 0 && bytes <= e.length
    ensures FitsBelow(MapEntry(e.base + bytes, e.length - bytes, e.kind), bytes)
  {
  }

  lemma {:induction false} CarvedFits(es: seq<MapEntry>, k: nat, bytes: nat)
    requires Aligned(es) && k < |es| && es[k].Usable() && es[k].length >= bytes
    requires bytes % FRAME == 0 && Highest(es) <= FRAME * (8 * bytes)
    ensures
      var c := Carved(es, k, bytes);
      forall i :: 0 <= i < |c| && c[i].Usable() ==> FitsBelow(c[i], bytes)
  {
    var c := Carved(es, k, bytes);
    forall i | 0 <= i < |c| && c[i].Usable()
      ensures FitsBelow(c[i], bytes)
    {
      assert es[i].Usable();
      assert FitsBelow(es[i], bytes);
      if i == k { CarvedEntryFits(es[i], bytes); }
    }
  }

  /** pmm_init: afterwards a frame below the limit is free exactly when it lies in a usable
      entry and outside the storage taken for the bitmap. */
  method Init(es: seq<MapEntry>) returns (pmm: Pmm)
    requires WellFormedMap(es)
    requires Covers(Highest(es) / FRAME)
    requires CarveIndex(es, BitmapBytes(Highest(es) / FRAME)).Some?
    ensures fresh(pmm) && fresh(pmm.bitmap) && pmm.Valid() && pmm.limit == Highest(es) / FRAME
    ensures
      var bytes := BitmapBytes(pmm.limit);
      var home := es[CarveIndex(es, bytes).value];
      forall f: nat :: f < pmm.limit ==>
        (f !in pmm.Used() <==> InUsable(es, f) && !(home.base <= FRAME * f < home.base + bytes))
  {
    var highest := FindHighest(es);
    var limit := highest / FRAME;
    var bytes := AlignUp(limit / 8, FRAME);
    var k := FindCarve(es, bytes);
    pmm := new Pmm(bytes, limit);
    var es' := Carved(es, k.value, bytes);
    HighestAligned(es);
    CarvedFits(es, k.value, bytes);
    FreeUsable(pmm, es');
    CarvedAll(es, k.value, bytes);
  }
}
