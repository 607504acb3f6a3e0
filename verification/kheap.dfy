/** The kernel heap: a free list of blocks searched first-fit, split on allocation and merged with
    the next list entry when the two are adjacent. Addresses are physical byte addresses. */
module KernelHeap {
  import opened Words
  import opened FrameAllocator
  import opened Sequences

  const HEADER := 24

  /** The size of the block record, which a header and the first payload word make up. */
  const RECORD := 32

  /** A block: a 24-byte header at at, then size bytes of payload. */
  datatype Block = Block(at: nat, size: nat)

  function End(b: Block): nat { b.at + HEADER + b.size }

  predicate InBlock(b: Block, a: nat) { b.at <= a < End(b) }

  predicate Before(x: Block, y: Block) { End(x) <= y.at }

  // ----- Tiling -----

  ghost predicate Apart(s: set<Block>)
  {
    forall x, y :: x in s && y in s && x != y ==> Before(x, y) || Before(y, x)
  }

  ghost predicate Covered(s: set<Block>, a: nat) { exists x :: x in s && InBlock(x, a) }

  ghost predicate Fills(s: set<Block>, frames: set<nat>)
  {
    forall a: nat {:trigger Covered(s, a)} :: Covered(s, a) <==> a / FRAME in frames
  }

  /** Every byte of the frames, and no other byte, lies in exactly one block. */
  ghost predicate Tiles(s: set<Block>, frames: set<nat>) { Apart(s) && Fills(s, frames) }

  /** Replacing blocks by others that occupy the same bytes keeps the tiling. */
  lemma Retile(s: set<Block>, t: set<Block>, frames: set<nat>)
    requires Tiles(s, frames) && Apart(t)
    requires forall a: nat :: Covered(s, a) <==> Covered(t, a)
    ensures Tiles(t, frames)
  {
  }

  lemma CoveredBy(s: set<Block>, x: Block, a: nat)
    requires x in s && InBlock(x, a)
    ensures Covered(s, a)
  {
  }

  /** Cutting a block in two keeps the tiling. */
  lemma SplitTiles(s: set<Block>, t: set<Block>, frames: set<nat>, b: Block, k: nat)
    requires Tiles(s, frames) && b in s && k + HEADER <= b.size
    requires t == s - {b} + {Block(b.at, k), Block(b.at + HEADER + k, b.size - k - HEADER)}
    ensures Tiles(t, frames)
  {
    var x, y := Block(b.at, k), Block(b.at + HEADER + k, b.size - k - HEADER);
    forall a: nat ensures Covered(s, a) <==> Covered(t, a) {
      if InBlock(b, a) { CoveredBy(s, b, a); CoveredBy(t, if InBlock(x, a) then x else y, a); }
      else if Covered(s, a) { var z :| z in s && InBlock(z, a); CoveredBy(t, z, a); }
    }
    Retile(s, t, frames);
  }

  function Merged(x: Block, y: Block): Block { Block(x.at, x.size + HEADER + y.size) }

  function MergeIn(s: set<Block>, x: Block, y: Block): set<Block> { s - {x, y} + {Merged(x, y)} }

  lemma MergeTiles(s: set<Block>, frames: set<nat>, x: Block, y: Block)
    requires Tiles(s, frames) && x in s && y in s && End(x) == y.at
    ensures Tiles(MergeIn(s, x, y), frames)
  {
    var m, t := Merged(x, y), MergeIn(s, x, y);
    forall a: nat ensures Covered(s, a) <==> Covered(t, a) {
      if InBlock(m, a) { CoveredBy(t, m, a); CoveredBy(s, if InBlock(x, a) then x else y, a); }
      else if Covered(s, a) { var z :| z in s && InBlock(z, a); CoveredBy(t, z, a); }
    }
    Retile(s, t, frames);
  }

  lemma MergedMeet(s: set<Block>, frames: set<nat>, x: Block, y: Block)
    requires Tiles(s, frames) && x in s && y in s && x != y && Tiles(MergeIn(s, x, y), frames)
    ensures End(x) == y.at
  {
    CoveredBy(MergeIn(s, x, y), Merged(x, y), End(x));
    assert Covered(s, End(x));
    var z :| z in s && InBlock(z, End(x));
    assert z == x || z == y || z in MergeIn(s, x, y);
    assert z == x || Before(x, z) || Before(z, x);
  }

  /** Two blocks of a tiling may be merged exactly when the second starts where the first ends. */
  lemma MergeTilesExactly(s: set<Block>, frames: set<nat>, x: Block, y: Block)
    requires Tiles(s, frames) && x in s && y in s && x != y
    ensures Tiles(MergeIn(s, x, y), frames) <==> End(x) == y.at
  {
    if End(x) == y.at { MergeTiles(s, frames, x, y); }
    if Tiles(MergeIn(s, x, y), frames) { MergedMeet(s, frames, x, y); }
  }

  // ----- List operations -----

  function Blocks(l: seq<Block>): set<Block> { set b | b in l }

  /** Index of the first block of at least size bytes. */
  function FirstFitFrom(l: seq<Block>, size: nat, i: nat): (r: Option<nat>)
    requires i <= |l|
    ensures r.Some? ==> i <= r.value < |l| && l[r.value].size >= size
    ensures r.Some? ==> forall k :: i <= k < r.value ==> l[k].size < size
    ensures r.None? ==> forall k :: i <= k < |l| ==> l[k].size < size
    decreases |l| - i
  {
    if i == |l| then None else if l[i].size >= size then Some(i) else FirstFitFrom(l, size, i + 1)
  }

  predicate Splits(b: Block, size: nat) { b.size >= size + HEADER }

  /** The block handed out for a request, and the list left behind. */
  function Given(b: Block, size: nat): Block { if Splits(b, size) then Block(b.at, size) else b }

  function Left(l: seq<Block>, i: nat, size: nat): seq<Block>
    requires i < |l| && l[i].size >= size
  {
    if Splits(l[i], size) then l[i := Block(l[i].at + HEADER + size, l[i].size - size - HEADER)] else Without(l, i)
  }

  /** The test of the list pass. The source adds the distance to a pointer to the 32-byte block record, so
      as compiled the distance is scaled by that size; far tells whether it is. */
  predicate Meets(far: bool, x: Block, y: Block)
  {
    x.at + (if far then RECORD * (x.size + HEADER) else x.size + HEADER) == y.at
  }

  /** One pass over the list: p absorbs each next entry that meets it. */
  function CoalesceFrom(far: bool, p: Block, rest: seq<Block>): (r: seq<Block>)
    ensures r != [] && r[0].at == p.at && r[0].size >= p.size
    decreases |rest|
  {
    if rest == [] then [p]
    else if Meets(far, p, rest[0]) then CoalesceFrom(far, Merged(p, rest[0]), rest[1..])
    else [p] + CoalesceFrom(far, rest[0], rest[1..])
  }

  function Coalesce(far: bool, l: seq<Block>): seq<Block>
  {
    if l == [] then [] else CoalesceFrom(far, l[0], l[1..])
  }

  /** Some two neighbours of the list stand at the scaled distance. */
  predicate Fires(l: seq<Block>) { exists i :: 0 <= i < |l| - 1 && Meets(true, l[i], l[i + 1]) }

  /** The pass over l is harmless: it merges in bytes, or the scaled test never holds. */
  predicate Harmless(far: bool, l: seq<Block>) { far ==> !Fires(l) }

  /** Where a freed block goes: before the first block of higher address, or at the front. */
  function Slot(l: seq<Block>, at: nat, i: nat): (r: nat)
    requires i <= |l|
    ensures r <= |l|
    decreases |l| - i
  {
    if i == |l| then 0 else if l[i].at > at then i else Slot(l, at, i + 1)
  }

  /** The slot is in front of the first block of higher address, or at the front when there is none. */
  lemma {:induction false} SlotIs(l: seq<Block>, at: nat, i: nat)
    requires i <= |l|
    ensures
      var r := Slot(l, at, i);
      if exists k :: i <= k < |l| && l[k].at > at
      then i <= r < |l| && l[r].at > at && forall k :: i <= k < r ==> l[k].at <= at
      else r == 0
    decreases |l| - i
  {
    if i < |l| && l[i].at <= at { SlotIs(l, at, i + 1); }
  }

  function Insert(l: seq<Block>, b: Block): seq<Block>
  {
    var i := Slot(l, b.at, 0);
    l[..i] + [b] + l[i..]
  }

  /** Frames asked for when no block fits. */
  function FramesFor(size: nat): nat { (size + HEADER + FRAME - 1) / FRAME }

  // ----- The heap -----

  /** live maps each block handed out to the size that was asked for. */
  datatype Heap = Heap(free: seq<Block>, live: map<Block, nat>, frames: set<nat>, used: set<nat>, limit: nat)

  ghost predicate HeapOk(h: Heap)
  {
    && Distinct(h.free) && Blocks(h.free) !! h.live.Keys
    && Tiles(Blocks(h.free) + h.live.Keys, h.frames) && h.frames <= h.used
    && forall b :: b in h.live ==> h.live[b] <= b.size < h.live[b] + HEADER
  }

  function Take(h: Heap, i: nat, size: nat): Heap
    requires i < |h.free| && h.free[i].size >= size
  {
    h.(free := Left(h.free, i, size), live := h.live[Given(h.free[i], size) := size])
  }

  /** The list when whole frames from b on have joined it, before the pass. */
  function Joined(h: Heap, b: nat, n: nat): seq<Block>
    requires n >= 1
  {
    h.free + [Block(FRAME * b, FRAME * n - HEADER)]
  }

  /** The added region: whole frames from the frame allocator, as one free block at the list's end. */
  function Grow(far: bool, h: Heap, size: nat): Option<Heap>
  {
    var n := FramesFor(size);
    match FirstFit(h.used, h.limit, n)
    case None => None
    case Some(b) =>
      Some(h.(free := Coalesce(far, Joined(h, b, n)), frames := h.frames + Run(b, n), used := h.used + Run(b, n)))
  }

  /** As many frames as the block needs, and no more. */
  lemma GrowFits(size: nat)
    ensures 1 <= FramesFor(size) && FRAME * FramesFor(size) - HEADER >= size
    ensures FRAME * (FramesFor(size) - 1) < size + HEADER
  {
  }

  lemma {:induction false} CoalesceGrows(far: bool, p: Block, rest: seq<Block>, x: Block, size: nat)
    requires (x == p || x in rest) && x.size >= size
    ensures exists y :: y in CoalesceFrom(far, p, rest) && y.size >= size
    decreases |rest|
  {
    if rest == [] { assert p in CoalesceFrom(far, p, rest); }
    else if Meets(far, p, rest[0]) {
      var m := Merged(p, rest[0]);
      CoalesceGrows(far, m, rest[1..], if x == p || x == rest[0] then m else x, size);
    } else if x == p { assert p in CoalesceFrom(far, p, rest); }
    else {
      CoalesceGrows(far, rest[0], rest[1..], x, size);
      var y :| y in CoalesceFrom(far, rest[0], rest[1..]) && y.size >= size;
      assert y in CoalesceFrom(far, p, rest);
    }
  }

  /** After growing, first-fit succeeds: the retry never grows again. */
  lemma GrowThenFits(far: bool, h: Heap, size: nat)
    requires Grow(far, h, size).Some?
    ensures FirstFitFrom(Grow(far, h, size).value.free, size, 0).Some?
  {
    var n := FramesFor(size);
    var b := FirstFit(h.used, h.limit, n).value;
    GrowFits(size);
    var l := Joined(h, b, n);
    var x := l[|l| - 1];
    assert |l| > 1 ==> l[1..][|l| - 2] == x;
    CoalesceGrows(far, l[0], l[1..], x, size);
    var y :| y in Coalesce(far, l) && y.size >= size;
    var k :| 0 <= k < |Coalesce(far, l)| && Coalesce(far, l)[k] == y;
  }

  /** kheap_alloc: the heap afterwards and the block handed out. */
  function Alloc(far: bool, h: Heap, size: nat): Option<(Heap, Block)>
    decreases if FirstFitFrom(h.free, size, 0).None? then 1 else 0
  {
    match FirstFitFrom(h.free, size, 0)
    case Some(i) => Some((Take(h, i, size), Given(h.free[i], size)))
    case None =>
      match Grow(far, h, size)
      case None => None
      case Some(g) => GrowThenFits(far, h, size); Alloc(far, g, size)
  }

  /** The list path of kheap_free. */
  function Free(far: bool, h: Heap, b: Block): Heap
    requires b in h.live
  {
    h.(free := Coalesce(far, Insert(h.free, b)), live := h.live - {b})
  }

  /** The pass a growing allocation makes is harmless. */
  predicate GrowsHarmlessly(far: bool, h: Heap, size: nat)
  {
    var n := FramesFor(size);
    match FirstFit(h.used, h.limit, n)
    case None => true
    case Some(b) => Harmless(far, Joined(h, b, n))
  }

  predicate AllocatesHarmlessly(far: bool, h: Heap, size: nat)
  {
    FirstFitFrom(h.free, size, 0).None? ==> GrowsHarmlessly(far, h, size)
  }

  // ----- Every operation keeps the tiling -----

  /** A list and the blocks outside it, together tiling the frames. */
  ghost predicate ListTiles(l: seq<Block>, other: set<Block>, frames: set<nat>)
  {
    Distinct(l) && Blocks(l) !! other && Tiles(Blocks(l) + other, frames)
  }

  lemma MergeList(p: Block, rest: seq<Block>, other: set<Block>, frames: set<nat>)
    requires rest != [] && ListTiles([p] + rest, other, frames) && End(p) == rest[0].at
    ensures ListTiles([Merged(p, rest[0])] + rest[1..], other, frames)
  {
    var l, m := [p] + rest, Merged(p, rest[0]);
    var s := Blocks(l) + other;
    assert l[0] == p && l[1] == rest[0] && p in s && rest[0] in s;
    forall z | z in s && z != p && z != rest[0] ensures z != m { assert Before(p, z) || Before(z, p); }
    var l' := [m] + rest[1..];
    forall k | 0 < k < |l'| ensures l'[k] == l[k + 1] && l[k + 1] != p && l[k + 1] != rest[0] && l'[k] in s { }
    assert Blocks(l') + other == MergeIn(s, p, rest[0]) by {
      forall z | z in s && z != p && z != rest[0] && z !in other ensures z in l' {
        var k :| 0 <= k < |l| && l[k] == z;
        assert l'[k - 1] == z;
      }
    }
    MergeTiles(s, frames, p, rest[0]);
  }

  lemma StepList(p: Block, rest: seq<Block>, other: set<Block>, frames: set<nat>)
    requires rest != [] && ListTiles([p] + rest, other, frames)
    ensures ListTiles([rest[0]] + rest[1..], other + {p}, frames)
  {
    var l := [p] + rest;
    assert [rest[0]] + rest[1..] == rest == l[1..];
    assert Blocks(l) + other == Blocks(rest) + (other + {p});
    forall k | 0 <= k < |rest| ensures rest[k] != p { assert l[k + 1] == rest[k] && l[0] == p; }
  }

  lemma ConsList(p: Block, r: seq<Block>, other: set<Block>, frames: set<nat>)
    requires ListTiles(r, other + {p}, frames) && p !in other
    ensures ListTiles([p] + r, other, frames)
  {
    assert Blocks([p] + r) + other == Blocks(r) + (other + {p});
    assert p !in Blocks(r);
  }

  lemma {:induction false} CoalesceTiles(p: Block, rest: seq<Block>, other: set<Block>, frames: set<nat>)
    requires ListTiles([p] + rest, other, frames)
    ensures ListTiles(CoalesceFrom(false, p, rest), other, frames)
    decreases |rest|
  {
    if rest == [] { assert [p] + rest == [p]; }
    else if Meets(false, p, rest[0]) {
      MergeList(p, rest, other, frames);
      CoalesceTiles(Merged(p, rest[0]), rest[1..], other, frames);
    } else {
      StepList(p, rest, other, frames);
      assert ([p] + rest)[0] == p;
      CoalesceTiles(rest[0], rest[1..], other + {p}, frames);
      ConsList(p, CoalesceFrom(false, rest[0], rest[1..]), other, frames);
    }
  }

  /** A pass whose test never holds changes nothing. */
  lemma {:induction false} PassIdle(p: Block, rest: seq<Block>)
    requires !Fires([p] + rest)
    ensures CoalesceFrom(true, p, rest) == [p] + rest
    decreases |rest|
  {
    if rest != [] {
      var l := [p] + rest;
      assert !Meets(true, l[0], l[1]);
      assert [rest[0]] + rest[1..] == rest;
      forall i | 0 <= i < |rest| - 1 ensures !Meets(true, rest[i], rest[i + 1]) {
        assert l[i + 1] == rest[i] && l[i + 2] == rest[i + 1];
      }
      PassIdle(rest[0], rest[1..]);
    }
  }

  lemma CoalesceListTiles(far: bool, l: seq<Block>, other: set<Block>, frames: set<nat>)
    requires ListTiles(l, other, frames) && Harmless(far, l)
    ensures ListTiles(Coalesce(far, l), other, frames)
  {
    if l != [] {
      assert [l[0]] + l[1..] == l;
      if far { PassIdle(l[0], l[1..]); } else { CoalesceTiles(l[0], l[1..], other, frames); }
    }
  }

  /** After the pass no two neighbours meet. */
  lemma {:induction false} CoalesceComplete(far: bool, p: Block, rest: seq<Block>, k: nat)
    requires k + 1 < |CoalesceFrom(far, p, rest)|
    ensures !Meets(far, CoalesceFrom(far, p, rest)[k], CoalesceFrom(far, p, rest)[k + 1])
    decreases |rest|
  {
    if rest != [] {
      if Meets(far, p, rest[0]) { CoalesceComplete(far, Merged(p, rest[0]), rest[1..], k); }
      else if k > 0 { CoalesceComplete(far, rest[0], rest[1..], k - 1); }
    }
  }

  /** Fresh whole frames become one more block. */
  lemma RegionTiles(s: set<Block>, frames: set<nat>, b: nat, n: nat, x: Block)
    requires Tiles(s, frames) && n >= 1 && frames !! Run(b, n) && x == Block(FRAME * b, FRAME * n - HEADER)
    ensures x !in s && Tiles(s + {x}, frames + Run(b, n))
  {
    forall a: nat ensures InBlock(x, a) <==> a / FRAME in Run(b, n) { }
    forall z | z in s ensures Before(z, x) || Before(x, z) {
      RegionApart(s, frames, b, n, x, z);
    }
    forall a: nat ensures Covered(s + {x}, a) <==> Covered(s, a) || InBlock(x, a) {
      if Covered(s, a) { var z :| z in s && InBlock(z, a); CoveredBy(s + {x}, z, a); }
      if InBlock(x, a) { CoveredBy(s + {x}, x, a); }
    }
  }

  lemma RegionApart(s: set<Block>, frames: set<nat>, b: nat, n: nat, x: Block, z: Block)
    requires Tiles(s, frames) && n >= 1 && frames !! Run(b, n) && x == Block(FRAME * b, FRAME * n - HEADER) && z in s
    requires forall a: nat :: InBlock(x, a) <==> a / FRAME in Run(b, n)
    ensures Before(z, x) || Before(x, z)
  {
    var a := if z.at < x.at then x.at else z.at;
    if InBlock(z, a) { CoveredBy(s, z, a); }
  }

  lemma WithoutBlocks(l: seq<Block>, i: nat)
    requires Distinct(l) && i < |l|
    ensures Distinct(Without(l, i)) && Blocks(Without(l, i)) == Blocks(l) - {l[i]}
  {
    WithoutEnds(l, i, Without(l, i));
    forall z | z in l && z != l[i] ensures z in Without(l, i) {
      var k :| 0 <= k < |l| && l[k] == z;
      assert Without(l, i)[if k < i then k else k - 1] == z;
    }
  }

  lemma UpdateBlocks(l: seq<Block>, i: nat, x: Block)
    requires Distinct(l) && i < |l| && x !in l
    ensures Distinct(l[i := x]) && Blocks(l[i := x]) == Blocks(l) - {l[i]} + {x}
  {
    forall z | z in l && z != l[i] ensures z in l[i := x] {
      var k :| 0 <= k < |l| && l[k] == z;
      assert l[i := x][k] == z;
    }
    assert l[i := x][i] == x;
  }

  lemma TakeOk(h: Heap, i: nat, size: nat)
    requires HeapOk(h) && i < |h.free| && h.free[i].size >= size
    ensures HeapOk(Take(h, i, size)) && Given(h.free[i], size) !in h.live
    ensures Given(h.free[i], size).at == h.free[i].at && Given(h.free[i], size).size >= size
  {
    var b, s := h.free[i], Blocks(h.free) + h.live.Keys;
    var x := Given(b, size);
    assert b in s && b !in h.live.Keys;
    forall z | z in s && z != b ensures z.at != b.at && z != x { assert Before(b, z) || Before(z, b); }
    if Splits(b, size) {
      var y := Block(b.at + HEADER + size, b.size - size - HEADER);
      forall z | z in s ensures z != y { assert z == b || Before(b, z) || Before(z, b); }
      assert y !in h.free;
      UpdateBlocks(h.free, i, y);
      SplitTiles(s, s - {b} + {x, y}, h.frames, b, size);
      assert Blocks(Left(h.free, i, size)) + (h.live.Keys + {x}) == s - {b} + {x, y};
    } else {
      WithoutBlocks(h.free, i);
      assert Blocks(Left(h.free, i, size)) + (h.live.Keys + {x}) == s;
    }
    assert Take(h, i, size).live.Keys == h.live.Keys + {x};
  }

  /** Fresh frames on the list, before the pass. */
  lemma JoinedTiles(h: Heap, b: nat, n: nat)
    requires HeapOk(h) && n >= 1 && h.used !! Run(b, n)
    ensures ListTiles(Joined(h, b, n), h.live.Keys, h.frames + Run(b, n))
  {
    var s, x := Blocks(h.free) + h.live.Keys, Block(FRAME * b, FRAME * n - HEADER);
    RegionTiles(s, h.frames, b, n, x);
    assert Blocks(h.free + [x]) + h.live.Keys == s + {x};
    assert x !in h.free;
  }

  lemma {:induction false} GrowOk(far: bool, h: Heap, size: nat)
    requires HeapOk(h) && Grow(far, h, size).Some? && GrowsHarmlessly(far, h, size)
    ensures HeapOk(Grow(far, h, size).value)
  {
    var n := FramesFor(size);
    GrowFits(size);
    var b := FirstFit(h.used, h.limit, n).value;
    JoinedTiles(h, b, n);
    CoalesceListTiles(far, Joined(h, b, n), h.live.Keys, h.frames + Run(b, n));
  }

  /** kheap_alloc keeps the tiling, and hands out a block that was not live, of at least the size asked for. */
  lemma {:induction false} AllocOk(far: bool, h: Heap, size: nat)
    requires HeapOk(h) && Alloc(far, h, size).Some? && AllocatesHarmlessly(far, h, size)
    ensures
      var (g, b) := Alloc(far, h, size).value;
      HeapOk(g) && b.size >= size && b !in h.live && g.live == h.live[b := size] && h.frames <= g.frames
    decreases if FirstFitFrom(h.free, size, 0).None? then 1 else 0
  {
    match FirstFitFrom(h.free, size, 0)
    case Some(i) => TakeOk(h, i, size);
    case None =>
      GrowOk(far, h, size);
      GrowThenFits(far, h, size);
      AllocOk(far, Grow(far, h, size).value, size);
  }

  /** A freed block on the list, before the pass. */
  lemma InsertTiles(h: Heap, b: Block)
    requires HeapOk(h) && b in h.live
    ensures ListTiles(Insert(h.free, b), h.live.Keys - {b}, h.frames)
  {
    var l := Insert(h.free, b);
    assert b !in h.free;
    InsertBlocks(h.free, Slot(h.free, b.at, 0), b, l);
    assert Blocks(l) + (h.live.Keys - {b}) == Blocks(h.free) + h.live.Keys;
  }

  lemma FreeOk(far: bool, h: Heap, b: Block)
    requires HeapOk(h) && b in h.live && Harmless(far, Insert(h.free, b))
    ensures HeapOk(Free(far, h, b))
  {
    InsertTiles(h, b);
    CoalesceListTiles(far, Insert(h.free, b), h.live.Keys - {b}, h.frames);
    assert Free(far, h, b).live.Keys == h.live.Keys - {b};
  }

  lemma InsertBlocks(l: seq<Block>, i: nat, b: Block, m: seq<Block>)
    requires Distinct(l) && i <= |l| && b !in l && m == l[..i] + [b] + l[i..]
    ensures Distinct(m) && Blocks(m) == Blocks(l) + {b}
  {
    forall k | 0 <= k < |l| ensures l[k] in m { assert m[if k < i then k else k + 1] == l[k]; }
    assert m[i] == b;
  }

  /** kheap_realloc to at least the old block's size: the copy of the old block's whole payload fits the
      new block, which overlaps nothing of the old one. The old block is not given back. */
  lemma ReallocFits(far: bool, h: Heap, b: Block, want: nat, g: Heap, c: Block)
    requires HeapOk(h) && b in h.live && want >= b.size && Alloc(far, h, want) == Some((g, c))
    requires AllocatesHarmlessly(far, h, want)
    ensures HeapOk(g) && b in g.live && c in g.live && c != b && b.size <= c.size && (Before(b, c) || Before(c, b))
  {
    AllocOk(far, h, want);
    assert b in g.live.Keys && c in g.live.Keys;
  }

  // ----- Whole runs -----

  /** Frame release in kheap_free, taken for a page-sized block whose header starts 24 bytes into a frame. */
  predicate ReleasesFrames(b: Block) { b.size + RECORD >= FRAME && (b.at + FRAME - HEADER) % FRAME == 0 }

  /** Others stands for what the rest of the kernel does with the frame allocator. */
  datatype Event = Request(size: nat) | Release(b: Block) | Others(used: set<nat>)

  function Step(far: bool, h: Heap, e: Event): Heap
  {
    match e
    case Request(size) => if Alloc(far, h, size).Some? then Alloc(far, h, size).value.0 else h
    case Release(b) => if b in h.live && !ReleasesFrames(b) then Free(far, h, b) else h
    case Others(used) => h.(used := used + h.frames)
  }

  /** The pass the event makes, if it makes one, is harmless. */
  predicate StepsHarmlessly(far: bool, h: Heap, e: Event)
  {
    match e
    case Request(size) => AllocatesHarmlessly(far, h, size)
    case Release(b) => b in h.live && !ReleasesFrames(b) ==> Harmless(far, Insert(h.free, b))
    case Others(_) => true
  }

  function After(far: bool, h: Heap, es: seq<Event>): Heap
    decreases |es|
  {
    if es == [] then h else After(far, Step(far, h, es[0]), es[1..])
  }

  lemma {:induction false} StepOk(far: bool, h: Heap, e: Event)
    requires HeapOk(h) && StepsHarmlessly(far, h, e)
    ensures HeapOk(Step(far, h, e))
  {
    match e
    case Request(size) => if Alloc(far, h, size).Some? { AllocOk(far, h, size); }
    case Release(b) => if b in h.live && !ReleasesFrames(b) { FreeOk(far, h, b); }
    case Others(_) =>
  }

  /** With the pass in bytes, every run keeps the heap well formed. */
  lemma {:induction false} RunsOk(h: Heap, es: seq<Event>)
    requires HeapOk(h)
    ensures HeapOk(After(false, h, es))
    decreases |es|
  {
    if es != [] {
      StepOk(false, h, es[0]);
      RunsOk(Step(false, h, es[0]), es[1..]);
    }
  }

  function Payload(b: Block): (nat, nat) { (b.at + HEADER, End(b)) }

  function Empty(used: set<nat>, limit: nat): (h: Heap)
    ensures HeapOk(h)
  {
    Heap([], map[], {}, used, limit)
  }

  /** Every byte of the heap's frames, and no other, is in exactly one block; live payloads are
      disjoint, outside every free block and at least as large as asked for. */
  ghost predicate Conserved(h: Heap, s: set<Block>, a: nat, x: Block, y: Block)
    requires s == Blocks(h.free) + h.live.Keys
  {
    && (a / FRAME in h.frames <==> exists b :: b in s && InBlock(b, a))
    && (x in s && y in s && InBlock(x, a) && InBlock(y, a) ==> x == y)
    && (x in h.live ==> h.live[x] <= x.size < h.live[x] + HEADER && x !in h.free)
    && (x in h.live && y in s && x != y ==> Payload(x).1 <= y.at || End(y) <= Payload(x).0)
  }

  lemma OkConserved(h: Heap, s: set<Block>, a: nat, x: Block, y: Block)
    requires HeapOk(h) && s == Blocks(h.free) + h.live.Keys
    ensures Conserved(h, s, a, x, y)
  {
    assert Covered(s, a) <==> a / FRAME in h.frames;
  }

  /** Conservation after any run from the empty heap, with the pass in bytes. */
  lemma {:induction false} HeapConserves(used: set<nat>, limit: nat, es: seq<Event>, h: Heap, s: set<Block>,
                                         a: nat, x: Block, y: Block)
    requires h == After(false, Empty(used, limit), es) && s == Blocks(h.free) + h.live.Keys
    ensures Conserved(h, s, a, x, y)
  {
    RunsOk(Empty(used, limit), es);
    OkConserved(h, s, a, x, y);
  }
}
