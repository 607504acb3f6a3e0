/** The kernel heap in place: block sizes and list links are words in memory, reached by address. */
module KernelHeapList {
  import opened Words
  import opened FrameAllocator
  import opened Sequences
  import opened LinkedRing
  import opened KernelHeap
  import opened ScaledHeap

  /** The list head's own node; no block lies in frame 0. */
  const HEAD: nat := 0

  function Nodes(free: seq<Block>): (r: seq<nat>)
    ensures |r| == |free| + 1
  {
    [HEAD] + seq(|free|, i requires 0 <= i < |free| => free[i].at)
  }

  ghost predicate SizesOk(size: map<nat, nat>,
                          s: set<Block>) { forall b :: b in s ==> b.at in size && size[b.at] == b.size }

  class KHeap {
    var next: map<nat, nat>
    var prev: map<nat, nat>
    var size: map<nat, nat>
    const pmm: Pmm
    const far: bool
    ghost var free: seq<Block>
    ghost var live: map<Block, nat>
    ghost var frames: set<nat>

    /** The free list as the links and sizes give it. */
    ghost predicate ListOk()
      reads this
    {
      Ring(next, prev, Nodes(free)) && SizesOk(size, Blocks(free))
    }

    ghost function Model(): Heap
      reads this, pmm, pmm.bitmap
    {
      Heap(free, live, frames, pmm.Used(), pmm.limit)
    }

    ghost predicate Valid()
      reads this, pmm, pmm.bitmap
    {
      ListOk() && pmm.Valid() && HeapOk(Model()) && SizesOk(size, live.Keys) && 0 !in frames
    }

    /** far tells whether the list pass scales its distance, as it does as compiled. */
    constructor (p: Pmm, far: bool)
      requires p.Valid()
      ensures Valid() && pmm == p && this.far == far && Model() == Empty(p.Used(), p.limit)
    {
      next, prev, size, pmm := map[HEAD := HEAD], map[HEAD := HEAD], map[], p;
      this.far := far;
      free, live, frames := [], map[], {};
    }

    /** dll_list_add: n goes between p and x. */
    method Add(n: nat, p: nat, x: nat)
      modifies this`next, this`prev
      ensures next == old(next)[n := x][p := n] && prev == old(prev)[x := n][n := p]
    {
      prev := prev[x := n];
      next := next[n := x];
      prev := prev[n := p];
      next := next[p := n];
    }

    method AddBlock(addr: nat, total: nat)
      requires ListOk() && addr !in Nodes(free) && total >= HEADER
      modifies this`next, this`prev, this`size, this`free
      ensures ListOk() && free == old(free) + [Block(addr, total - HEADER)]
      ensures size == old(size)[addr := total - HEADER]
    {
      ghost var nodes, n := Nodes(free), |free|;
      assert LinkAt(next, prev, nodes, n);
      size := size[addr := total - HEADER];
      Add(addr, prev[HEAD], HEAD);
      free := free + [Block(addr, total - HEADER)];
      InsertRing(old(next), old(prev), nodes, n, addr, HEAD, next, prev);
      assert Nodes(free) == InsertAfter(nodes, n, addr);
      forall b | b in Blocks(free) ensures b.at in size && size[b.at] == b.size {
        SizeKept(old(free), b, addr);
      }
    }

    /** Takes the node at position i + 1 out of the ring; its own links stay readable. */
    method Unlink(at: nat, ghost i: nat)
      requires Ring(next, prev, Nodes(free)) && i < |free| && free[i].at == at
      modifies this`next, this`prev
      ensures Ring(next, prev, Without(Nodes(free), i + 1)) && at in next
      ensures next[at] == old(Nodes(free))[Succ(i + 1, |free| + 1)]
    {
      ghost var nodes := Nodes(free);
      assert LinkAt(next, prev, nodes, i + 1) && LinkAt(next, prev, nodes, i);
      prev := prev[next[at] := prev[at]];
      next := next[prev[at] := next[at]];
      RemoveRing(old(next), old(prev), nodes, i + 1, next, prev);
    }

    /** Block, entry k, is absorbed by the entry before it. */
    method Absorb(prevBlock: nat, block: nat, ghost k: nat)
      requires ListOk() && 0 < k < |free| && free[k - 1].at == prevBlock && free[k].at == block && prevBlock in size
      requires block in size
      modifies this`next, this`prev, this`size, this`free
      ensures ListOk() && free == MergeAt(old(free), k) && block in next
      ensures next[block] == Nodes(free)[Succ(k, |free| + 1)]
      ensures size == old(size)[prevBlock := old(size)[prevBlock] + old(size)[block] + HEADER]
    {
      assert free[k] in Blocks(free) && free[k - 1] in Blocks(free);
      size := size[prevBlock := size[prevBlock] + size[block] + HEADER];
      Unlink(block, k);
      MergeNodes(old(size), free, k, size);
      free := MergeAt(free, k);
    }

    /** The pass's test on a block and the entry before it, if there is one. */
    method Mergeable(prevBlock: nat, block: nat, ghost k: nat) returns (merge: bool)
      requires ListOk() && k < |free| && block == free[k].at && prevBlock == Nodes(free)[k]
      ensures merge <==> k > 0 && Meets(far, free[k - 1], free[k])
    {
      if prevBlock == HEAD { AtNode(size, free, k); return false; }
      AtNode(size, free, k);
      merge := prevBlock + (if far then RECORD * (size[prevBlock] + HEADER) else size[prevBlock] + HEADER) == block;
    }

    /** One pass merging each block into the one before it in the list when the two meet. */
    method CoalesceDll()
      requires ListOk()
      modifies this`next, this`prev, this`size, this`free
      ensures ListOk() && free == Coalesce(far, old(free)) && OnlyNodes(old(size), size, Nodes(old(free)))
    {
      var prevBlock: nat := HEAD;
      assert LinkAt(next, prev, Nodes(free), 0);
      var block := next[HEAD];
      ghost var k := 0;
      while block != HEAD
        invariant ListOk() && Progress(far, old(free), free, k)
        invariant block == Nodes(free)[Succ(k, |free| + 1)] && prevBlock == Nodes(free)[k]
        invariant OnlyNodes(old(size), size, Nodes(old(free))) && Within(Nodes(free), Nodes(old(free)))
        decreases |free| - k
      {
        AtEntry(size, free, k);
        var merge := Mergeable(prevBlock, block, k);
        if merge {
          MergeWithin(free, k);
          ProgressMerge(far, old(free), free, k);
          Absorb(prevBlock, block, k);
          block := next[block];
        } else {
          ProgressStep(far, old(free), free, k);
          assert LinkAt(next, prev, Nodes(free), k + 1);
          prevBlock := block;
          k := k + 1;
          block := next[block];
        }
      }
      AtHead(free, k);
      ProgressDone(far, old(free), free, k);
    }

    /** The first block of at least want bytes, or the head when there is none. */
    method Find(want: nat) returns (block: nat)
      requires ListOk()
      ensures
        match FirstFitFrom(free, want, 0)
        case Some(i) => block == free[i].at != HEAD
        case None => block == HEAD
    {
      assert LinkAt(next, prev, Nodes(free), 0);
      block := next[HEAD];
      ghost var k := 0;
      while block != HEAD
        invariant k <= |free| && block == Nodes(free)[Succ(k, |free| + 1)]
        invariant FirstFitFrom(free, want, 0) == FirstFitFrom(free, want, k)
        decreases |free| - k
      {
        AtEntry(size, free, k);
        if size[block] >= want { return; }
        assert LinkAt(next, prev, Nodes(free), k + 1);
        block := next[block];
        k := k + 1;
      }
      AtHead(free, k);
    }

    /** Cuts entry i in two; both halves stay listed. */
    method SplitEntry(block: nat, want: nat, ghost i: nat)
      requires ListOk() && i < |free| && free[i].at == block && Splits(free[i], want) && block in size
      requires size[block] == free[i].size
      requires block + HEADER + want !in Nodes(free)
      modifies this`next, this`prev, this`size, this`free
      ensures Ring(next, prev, Nodes(free)) && free == SplitAt(old(free), i, want)
      ensures size == old(size)[block + HEADER + want := old(size)[block] - want - HEADER][block := want]
    {
      ghost var nodes := Nodes(free);
      var newBlock := block + HEADER + want;
      size := size[newBlock := size[block] - want - HEADER];
      size := size[block := want];
      assert nodes[i + 1] == block && LinkAt(next, prev, nodes, i + 1);
      Add(newBlock, block, next[block]);
      InsertRing(old(next), old(prev), nodes, i + 1, newBlock, old(next)[block], next, prev);
      SplitNodes(free, i, want);
      free := SplitAt(free, i, want);
    }

    /** Splits entry i if the rest can hold a header, and takes it off the list. */
    method TakeEntry(block: nat, want: nat, ghost i: nat)
      requires ListOk() && i < |free| && free[i].at == block && free[i].size >= want && block in size
      requires size[block] == free[i].size
      requires Splits(free[i], want) ==> block + HEADER + want !in Nodes(free)
      modifies this`next, this`prev, this`size, this`free
      ensures ListOk() && free == Left(old(free), i, want)
      ensures size ==
        if Splits(old(free)[i], want)
        then old(size)[block + HEADER + want := old(size)[block] - want - HEADER][block := want]
        else old(size)
    {
      LeftNodes(free, i, want);
      if size[block] - want >= HEADER {
        SplitEntry(block, want, i);
      }
      Unlink(block, i);
      LeftSizes(old(size), old(free), i, want, size);
      free := Left(old(free), i, want);
    }

    /** Frames base.. join the list as one block; h is the heap before they were taken. */
    method AddRegion(base: nat, n: nat, ghost h: Heap)
      requires ListOk() && HeapOk(h) && h.free == free && h.live == live && SizesOk(size, live.Keys) && 0 !in h.frames
      requires n >= 1 && base >= 1 && h.used !! Run(base, n)
      modifies this`next, this`prev, this`size, this`free
      ensures ListOk() && free == Coalesce(far, Joined(h, base, n)) && SizesOk(size, live.Keys)
    {
      ghost var x := Block(FRAME * base, FRAME * n - HEADER);
      NewAddress(h, base, n, x);
      var addr, total := FRAME * base, FRAME * n;
      AddBlock(addr, total);
      assert free == h.free + [x] && size == old(size)[x.at := x.size];
      CoalesceDll();
      LiveKept(h, x, old(size), size);
    }

    /** No fit: whole frames from the frame allocator join the list as one block. */
    method GrowList(want: nat) returns (ok: bool)
      requires Valid() && GrowsHarmlessly(far, Model(), want)
      modifies this, pmm.bitmap
      ensures Valid() && ok == Grow(far, old(Model()), want).Some?
      ensures Model() == if ok then Grow(far, old(Model()), want).value else old(Model())
    {
      ghost var h := Model();
      var n := FramesFor(want);
      GrowIs(far, h, want, n, FirstFit(h.used, h.limit, n));
      var base := pmm.Malloc(n);
      ok := base.Some?;
      if ok { JoinFrames(base.value, n, h); } else { assert Model() == h; }
    }

    /** The frames just taken, already marked used, become a block of the heap h. */
    method JoinFrames(base: nat, n: nat, ghost h: Heap)
      requires ListOk() && pmm.Valid() && HeapOk(h) && h == Heap(free, live, frames, h.used, pmm.limit)
      requires SizesOk(size, live.Keys) && 0 !in frames
      requires n >= 1 && base >= 1 && h.used !! Run(base, n) && pmm.Used() == h.used + Run(base, n)
      modifies this
      ensures ListOk() && SizesOk(size, live.Keys) && 0 !in frames
      ensures Model() ==
        h.(free := Coalesce(far, Joined(h, base, n)), frames := h.frames + Run(base, n), used := h.used + Run(base, n))
    {
      AddRegion(base, n, h);
      frames := frames + Run(base, n);
    }

    /** Hands out entry i for a request of want bytes. */
    method TakeFound(block: nat, want: nat, ghost i: nat) returns (ptr: nat)
      requires Valid() && i < |free| && free[i].at == block && free[i].size >= want
      modifies this
      ensures Valid() && Model() == Take(old(Model()), i, want) && ptr == Given(old(free)[i], want).at + HEADER
    {
      ghost var h := Model();
      TakeReady(h, i, want);
      TakeOk(h, i, want);
      TakeEntry(block, want, i);
      live := live[Given(h.free[i], want) := want];
      TakeLive(h, i, want, old(size), size);
      ptr := block + HEADER;
    }

    /** kheap_alloc. The retry finds a block, so it does not grow the heap again. */
    method KheapAlloc(want: nat) returns (ptr: Option<nat>)
      requires Valid() && AllocatesHarmlessly(far, Model(), want)
      modifies this, pmm.bitmap
      ensures Valid() && Allocated(far, old(Model()), want, ptr, Model())
      decreases if FirstFitFrom(free, want, 0).None? then 1 else 0
    {
      ghost var h := Model();
      var block := Find(want);
      if block == HEAD {
        var ok := GrowList(want);
        if !ok { return None; }
        GrowThenFits(far, h, want);
        ptr := KheapAlloc(want);
        AllocAgain(far, h, want, ptr, Model());
      } else {
        var at := TakeFound(block, want, FirstFitFrom(free, want, 0).value);
        ptr := Some(at);
      }
    }

    /** The position a freed block goes to: the node to put it in front of, or the head. */
    method FindSlot(block: nat) returns (at: nat, ghost i: nat)
      requires ListOk()
      ensures i == Slot(free, block, 0) && (at == HEAD ==> i == 0) && (at != HEAD ==> i < |free| && at == free[i].at)
    {
      assert LinkAt(next, prev, Nodes(free), 0);
      at := next[HEAD];
      i := 0;
      while at != HEAD
        invariant i <= |free| && at == Nodes(free)[Succ(i, |free| + 1)]
        invariant Slot(free, block, 0) == Slot(free, block, i)
        decreases |free| - i
      {
        AtEntry(size, free, i);
        if at > block { return; }
        assert LinkAt(next, prev, Nodes(free), i + 1);
        at := next[at];
        i := i + 1;
      }
      AtHead(free, i);
      i := 0;
    }

    /** Links a block in at its slot. */
    method InsertBlock(ghost b: Block, block: nat)
      requires ListOk() && b.at == block && block !in Nodes(free) && block in size && size[block] == b.size
      modifies this`next, this`prev, this`free
      ensures ListOk() && free == Insert(old(free), b)
    {
      ghost var nodes := Nodes(free);
      var at, i := FindSlot(block);
      assert LinkAt(next, prev, nodes, i);
      if at != HEAD { Add(block, prev[at], at); } else { Add(block, HEAD, next[HEAD]); }
      InsertRing(old(next), old(prev), nodes, i, block, nodes[Succ(i, |nodes|)], next, prev);
      InsertNodes(free, i, b);
      free := Insert(free, b);
    }

    /** kheap_free, where it does not hand whole frames back: the list and the live blocks afterwards are
        those of the specification, and the heap is well formed exactly when the pass was harmless. */
    method KheapFree(ptr: nat, ghost b: Block)
      requires Valid() && b in live && ptr == b.at + HEADER && !ReleasesFrames(b)
      modifies this
      ensures ListOk() && SizesOk(size, live.Keys) && Model() == Free(far, old(Model()), b)
      ensures Valid() <==> Harmless(far, Insert(old(free), b))
    {
      ghost var h := Model();
      var block := ptr - HEADER;
      assert b in live.Keys;
      LiveNotListed(h, b);
      InsertBlock(b, block);
      CoalesceDll();
      live := live - {b};
      RestKept(h, b, old(size), size);
      FreeExactly(far, h, b);
    }
  }

  ghost predicate Within(nodes: seq<nat>, more: seq<nat>) { forall x :: x in nodes ==> x in more }

  lemma MergeWithin(free: seq<Block>, k: nat)
    requires 0 < k < |free|
    ensures Within(Nodes(MergeAt(free, k)), Nodes(free))
    ensures Nodes(MergeAt(free, k))[k] == free[k - 1].at == Nodes(free)[k]
  {
    forall x | x in Nodes(MergeAt(free, k)) ensures x in Nodes(free) {
      var j :| 0 <= j < |free| && Nodes(MergeAt(free, k))[j] == x;
      assert x == Nodes(free)[if j <= k then j else j + 1];
    }
  }

  /** The node at position k is the head, or entry k - 1 with its size word. */
  lemma AtNode(size: map<nat, nat>, free: seq<Block>, k: nat)
    requires Distinct(Nodes(free)) && SizesOk(size, Blocks(free)) && k <= |free|
    ensures if k == 0 then Nodes(free)[0] == HEAD
            else Nodes(free)[k] == free[k - 1].at != HEAD && free[k - 1].at in size
                 && size[free[k - 1].at] == free[k - 1].size
  {
    if k > 0 { NodeAt(free, k - 1); assert free[k - 1] in Blocks(free); }
  }

  /** Past k entries and not at the end, the next node is entry k and the one before it is entry k - 1. */
  lemma AtEntry(size: map<nat, nat>, free: seq<Block>, k: nat)
    requires Distinct(Nodes(free)) && SizesOk(size, Blocks(free)) && k <= |free|
    requires Nodes(free)[Succ(k, |free| + 1)] != HEAD
    ensures k < |free| && Nodes(free)[k + 1] == free[k].at != HEAD && free[k].at in size
    ensures size[free[k].at] == free[k].size
    ensures if k == 0 then Nodes(free)[0] == HEAD
            else Nodes(free)[k] == free[k - 1].at != HEAD
                 && free[k - 1].at in size && size[free[k - 1].at] == free[k - 1].size
  {
    NodeAt(free, k);
    assert free[k] in Blocks(free);
    if k > 0 { NodeAt(free, k - 1); assert free[k - 1] in Blocks(free); }
  }

  /** Only words at the given addresses may have changed, and none has gone. */
  ghost predicate OnlyNodes(size: map<nat, nat>, size': map<nat, nat>, nodes: seq<nat>)
  {
    forall a :: a in size ==> a in size' && (a !in nodes ==> size'[a] == size[a])
  }

  /** The pass has looked at k entries of what is now the list. */
  ghost predicate Progress(far: bool, was: seq<Block>, free: seq<Block>, k: nat)
  {
    && k <= |free|
    && if k == 0 then free == was
       else Coalesce(far, was) == free[..k - 1] + CoalesceFrom(far, free[k - 1], free[k..])
  }

  /** Past k entries the next node is the head only at the end of the list. */
  lemma AtHead(free: seq<Block>, k: nat)
    requires Distinct(Nodes(free)) && k <= |free| && Nodes(free)[Succ(k, |free| + 1)] == HEAD
    ensures k == |free|
  {
    assert Nodes(free)[0] == HEAD;
  }

  lemma ProgressMerge(far: bool, was: seq<Block>, free: seq<Block>, k: nat)
    requires 0 < k < |free| && Progress(far, was, free, k) && Meets(far, free[k - 1], free[k])
    ensures Progress(far, was, MergeAt(free, k), k)
  {
    var m := MergeAt(free, k);
    assert m[..k - 1] == free[..k - 1] && m[k - 1] == Merged(free[k - 1], free[k]);
    assert free[k..][0] == free[k] && free[k..][1..] == free[k + 1..] == m[k..];
  }

  lemma ProgressStep(far: bool, was: seq<Block>, free: seq<Block>, k: nat)
    requires k < |free| && Progress(far, was, free, k) && (k > 0 ==> !Meets(far, free[k - 1], free[k]))
    ensures Progress(far, was, free, k + 1)
  {
    if k > 0 {
      assert free[k..][0] == free[k] && free[k..][1..] == free[k + 1..];
      assert free[..k] == free[..k - 1] + [free[k - 1]];
      assert Coalesce(far, was) == free[..k - 1] + ([free[k - 1]] + CoalesceFrom(far, free[k], free[k + 1..]));
    } else {
      assert free[..0] + CoalesceFrom(far, free[0], free[1..]) == CoalesceFrom(far, free[0], free[1..]);
    }
  }

  lemma ProgressDone(far: bool, was: seq<Block>, free: seq<Block>, k: nat)
    requires Progress(far, was, free, k) && k == |free|
    ensures free == Coalesce(far, was)
  {
    if k > 0 { assert free[k..] == [] && free == free[..k - 1] + [free[k - 1]]; }
  }

  /** A list block other than the one at addr keeps its size. */
  lemma SizeKept(free: seq<Block>, b: Block, addr: nat)
    requires addr !in Nodes(free)
    ensures b in free ==> b.at != addr
  {
    if b in free {
      var k :| 0 <= k < |free| && free[k] == b;
      assert Nodes(free)[k + 1] == b.at;
    }
  }

  /** Entry k absorbed by the one before it. */
  function MergeAt(free: seq<Block>, k: nat): seq<Block>
    requires 0 < k < |free|
  {
    free[..k - 1] + [Merged(free[k - 1], free[k])] + free[k + 1..]
  }

  lemma NodeAt(free: seq<Block>, k: nat)
    requires k < |free| && Distinct(Nodes(free))
    ensures Nodes(free)[k + 1] == free[k].at != HEAD
            && forall j :: 0 <= j < |free| && j != k ==> free[j].at != free[k].at
  {
    assert Nodes(free)[0] == HEAD;
    forall j | 0 <= j < |free| && j != k ensures free[j].at != free[k].at {
      assert Nodes(free)[j + 1] == free[j].at && Nodes(free)[k + 1] == free[k].at;
    }
  }

  lemma MergeNodes(size: map<nat, nat>, free: seq<Block>, k: nat, size': map<nat, nat>)
    requires 0 < k < |free| && Distinct(Nodes(free)) && SizesOk(size, Blocks(free))
    requires size' == size[free[k - 1].at := free[k - 1].size + free[k].size + HEADER]
    ensures Nodes(MergeAt(free, k)) == Without(Nodes(free), k + 1) && SizesOk(size', Blocks(MergeAt(free, k)))
  {
    forall b | b in MergeAt(free, k) ensures b.at in size' && size'[b.at] == b.size {
      var j :| 0 <= j < |MergeAt(free, k)| && MergeAt(free, k)[j] == b;
      NodeAt(free, k - 1);
      if j != k - 1 { assert b == free[if j < k then j else j + 1] && b in Blocks(free); }
    }
  }

  /** Entry i cut in two, both halves still listed. */
  function SplitAt(free: seq<Block>, i: nat, want: nat): seq<Block>
    requires i < |free| && Splits(free[i], want)
  {
    free[..i] + [Block(free[i].at, want), Block(free[i].at + HEADER + want, free[i].size - want - HEADER)]
    + free[i + 1..]
  }

  lemma SplitNodes(free: seq<Block>, i: nat, want: nat)
    requires i < |free| && Splits(free[i], want)
    ensures Nodes(SplitAt(free, i, want)) == InsertAfter(Nodes(free), i + 1, free[i].at + HEADER + want)
  {
  }

  lemma NodesWithout(free: seq<Block>, i: nat)
    requires i < |free|
    ensures Nodes(Without(free, i)) == Without(Nodes(free), i + 1)
  {
    forall k | 0 <= k < |free| ensures Nodes(Without(free, i))[k] == Without(Nodes(free), i + 1)[k] {
      if k > 0 { assert Without(free, i)[k - 1] == free[if k <= i then k - 1 else k]; }
    }
  }

  lemma LeftNodes(free: seq<Block>, i: nat, want: nat)
    requires i < |free| && free[i].size >= want
    ensures Nodes(Left(free, i, want)) ==
      if Splits(free[i], want) then Without(Nodes(SplitAt(free, i, want)), i + 1)
      else Without(Nodes(free), i + 1)
  {
    if Splits(free[i], want) {
      assert Without(SplitAt(free, i, want), i) == Left(free, i, want);
      NodesWithout(SplitAt(free, i, want), i);
    } else {
      NodesWithout(free, i);
    }
  }

  lemma LeftSizes(size: map<nat, nat>, free: seq<Block>, i: nat, want: nat, size': map<nat, nat>)
    requires i < |free| && free[i].size >= want && Distinct(Nodes(free)) && SizesOk(size, Blocks(free))
    requires if Splits(free[i], want)
             then free[i].at + HEADER + want !in Nodes(free) &&
                  size' == size[free[i].at + HEADER + want := free[i].size - want - HEADER][free[i].at := want]
             else size' == size
    ensures SizesOk(size', Blocks(Left(free, i, want)))
  {
    forall b | b in Left(free, i, want) ensures b.at in size' && size'[b.at] == b.size {
      var j :| 0 <= j < |Left(free, i, want)| && Left(free, i, want)[j] == b;
      if !Splits(free[i], want) { assert b == free[if j < i then j else j + 1] && b in Blocks(free); }
      else if j != i {
        NodeAt(free, i);
        assert b == free[j] && b in Blocks(free);
        SizeKept(free, b, free[i].at + HEADER + want);
      }
    }
  }

  /** Blocks of a tiling start at different addresses, none of them in a frame that is not theirs. */
  lemma StartsDiffer(h: Heap, b: Block, a: nat)
    requires HeapOk(h) && (b in h.free || b in h.live) && a / FRAME !in h.frames
    ensures b.at != a && b.at / FRAME in h.frames
  {
    CoveredBy(Blocks(h.free) + h.live.Keys, b, b.at);
  }

  lemma NewAddress(h: Heap, base: nat, n: nat, x: Block)
    requires HeapOk(h) && n >= 1 && base >= 1 && h.used !! Run(base, n) && x == Block(FRAME * base, FRAME * n - HEADER)
    ensures x.at !in Nodes(h.free) && forall b :: b in h.live ==> b.at != x.at
  {
    assert x.at / FRAME == base && base in Run(base, n);
    forall k | 0 <= k < |Nodes(h.free)| ensures Nodes(h.free)[k] != x.at {
      if k > 0 { StartsDiffer(h, h.free[k - 1], x.at); }
    }
    forall b | b in h.live ensures b.at != x.at { StartsDiffer(h, b, x.at); }
  }

  lemma LiveNotListed(h: Heap, b: Block)
    requires HeapOk(h) && 0 !in h.frames && b in h.live
    ensures b.at !in Nodes(h.free)
  {
    StartsDiffer(h, b, 0);
    forall k | 0 <= k < |Nodes(h.free)| ensures Nodes(h.free)[k] != b.at {
      if k > 0 {
        var c := h.free[k - 1];
        assert c in Blocks(h.free) && b in h.live.Keys;
        assert Before(b, c) || Before(c, b);
      }
    }
  }

  /** Live blocks keep their size words when only list words change. */
  lemma LiveKept(h: Heap, x: Block, size: map<nat, nat>, size': map<nat, nat>)
    requires HeapOk(h) && 0 !in h.frames && SizesOk(size, h.live.Keys) && (forall b :: b in h.live ==> b.at != x.at)
    requires OnlyNodes(size[x.at := x.size], size', Nodes(h.free + [x]))
    ensures SizesOk(size', h.live.Keys)
  {
    assert Nodes(h.free + [x]) == Nodes(h.free) + [x.at];
    forall b | b in h.live ensures b.at in size' && size'[b.at] == b.size {
      assert b in h.live.Keys;
      LiveNotListed(h, b);
    }
  }

  lemma TakeReady(h: Heap, i: nat, want: nat)
    requires HeapOk(h) && 0 !in h.frames && i < |h.free| && h.free[i].size >= want
    ensures Splits(h.free[i], want) ==> h.free[i].at + HEADER + want !in Nodes(h.free)
    ensures Splits(h.free[i], want) ==> forall b :: b in h.live ==> b.at != h.free[i].at + HEADER + want
    ensures h.free[i] in Blocks(h.free) && forall b :: b in h.live ==> b.at != h.free[i].at
  {
    var b, s := h.free[i], Blocks(h.free) + h.live.Keys;
    var a := b.at + HEADER + want;
    assert b in s;
    forall c | c in h.live ensures c.at != b.at && (Splits(b, want) ==> c.at != a) {
      assert c in s && (Before(b, c) || Before(c, b));
    }
    forall k | 0 <= k < |Nodes(h.free)| && Splits(b, want) ensures Nodes(h.free)[k] != a {
      if k > 0 && k - 1 != i { assert h.free[k - 1] in s && (Before(b, h.free[k - 1]) || Before(h.free[k - 1], b)); }
    }
  }

  lemma TakeLive(h: Heap, i: nat, want: nat, size: map<nat, nat>, size': map<nat, nat>)
    requires HeapOk(h) && 0 !in h.frames && i < |h.free| && h.free[i].size >= want
    requires SizesOk(size, h.live.Keys) && SizesOk(size, Blocks(h.free)) && h.free[i] in Blocks(h.free)
    requires size' == if Splits(h.free[i], want)
                      then size[h.free[i].at + HEADER + want := h.free[i].size - want - HEADER][h.free[i].at := want]
                      else size
    ensures SizesOk(size', (h.live[Given(h.free[i], want) := want]).Keys)
  {
    TakeReady(h, i, want);
  }

  lemma {:induction false} GrowIs(far: bool, h: Heap, want: nat, n: nat, base: Option<nat>)
    requires HeapOk(h) && n == FramesFor(want) && base == FirstFit(h.used, h.limit, n) && GrowsHarmlessly(far, h, want)
    ensures n >= 1 && (base == None ==> Grow(far, h, want) == None)
    ensures base.Some? ==>
      Grow(far, h, want) == Some(h.(free := Coalesce(far, Joined(h, base.value, n)),
                                    frames := h.frames + Run(base.value, n), used := h.used + Run(base.value, n)))
      && HeapOk(Grow(far, h, want).value)
    ensures base.Some? ==> base.value >= 1 && h.used !! Run(base.value, n)
  {
    GrowFits(want);
    if base.Some? {
      GrowOk(far, h, want);
      assert Fits(h.used, h.limit, base.value, n);
    }
  }

  /** The pointer answers the request for want bytes from h, and leaves g. */
  ghost predicate Allocated(far: bool, h: Heap, want: nat, ptr: Option<nat>, g: Heap)
  {
    match Alloc(far, h, want)
    case None => ptr == None && g == h
    case Some(p) => g == p.0 && ptr == Some(p.1.at + HEADER)
  }

  /** The retry on the grown heap answers the request on the heap it grew from. */
  lemma {:induction false} AllocAgain(far: bool, h: Heap, want: nat, ptr: Option<nat>, g: Heap)
    requires FirstFitFrom(h.free, want, 0).None? && Grow(far, h, want).Some?
    requires Allocated(far, Grow(far, h, want).value, want, ptr, g)
    ensures Allocated(far, h, want, ptr, g)
  {
    GrowThenFits(far, h, want);
    assert Alloc(far, h, want) == Alloc(far, Grow(far, h, want).value, want);
  }

  lemma FreeExactly(far: bool, h: Heap, b: Block)
    requires HeapOk(h) && b in h.live
    ensures HeapOk(Free(far, h, b)) <==> Harmless(far, Insert(h.free, b))
  {
    if Harmless(far, Insert(h.free, b)) { FreeOk(far, h, b); } else { FreeBreaks(h, b); }
  }

  lemma InsertNodes(free: seq<Block>, i: nat, b: Block)
    requires i == Slot(free, b.at, 0)
    ensures Nodes(Insert(free, b)) == InsertAfter(Nodes(free), i, b.at) && Blocks(Insert(free, b)) == Blocks(free) + {b}
  {
    var m := Insert(free, b);
    assert m == free[..i] + [b] + free[i..];
    forall k | 0 <= k < |free| ensures free[k] in m { assert m[if k < i then k else k + 1] == free[k]; }
    assert m[i] == b;
  }

  /** The other live blocks keep their size words when b goes back on the list. */
  lemma RestKept(h: Heap, b: Block, size: map<nat, nat>, size': map<nat, nat>)
    requires HeapOk(h) && 0 !in h.frames && b in h.live && SizesOk(size, h.live.Keys)
    requires OnlyNodes(size, size', Nodes(Insert(h.free, b)))
    ensures SizesOk(size', (h.live - {b}).Keys)
  {
    InsertNodes(h.free, Slot(h.free, b.at, 0), b);
    forall c | c in h.live && c != b ensures c.at in size' && size'[c.at] == c.size {
      assert c in h.live.Keys && b in h.live.Keys && (Before(b, c) || Before(c, b));
      LiveNotListed(h, c);
    }
  }
}
