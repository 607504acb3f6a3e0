/** The list pass as compiled, with its distance scaled by the block record: it keeps the heap well formed
    exactly as long as its test never holds. */
module ScaledHeap {
  import opened Words
  import opened FrameAllocator
  import opened Sequences
  import opened KernelHeap

  // ----- What a pass does to each block -----

  /** t stands where o stood and is larger: o has absorbed something. */
  predicate Grew(o: Block, t: Block) { t.at == o.at && t.size > o.size }

  /** t stands where w stood and covers it. */
  predicate Covers(t: Block, w: Block) { t.at == w.at && t.size >= w.size }

  /** Each block is covered by one that stands in its place, or lies beyond the end of one that grew. */
  lemma {:induction false} PassFate(p: Block, rest: seq<Block>, w: Block) returns (o: Block, t: Block)
    requires w == p || w in rest
    ensures (o == p || o in rest) && t in CoalesceFrom(true, p, rest)
    ensures Covers(t, w) || (Grew(o, t) && w.at > End(o))
    decreases |rest|
  {
    var r := CoalesceFrom(true, p, rest);
    assert r[0] in r;
    if w == p { o, t := p, r[0]; }
    else if Meets(true, p, rest[0]) {
      if w == rest[0] { o, t := p, r[0]; }
      else {
        o, t := PassFate(Merged(p, rest[0]), rest[1..], w);
        if o == Merged(p, rest[0]) { o := p; }
      }
    } else {
      o, t := PassFate(rest[0], rest[1..], w);
    }
  }

  /** When the test holds somewhere, some block grows. */
  lemma {:induction false} FiredGrows(p: Block, rest: seq<Block>) returns (o: Block, t: Block)
    requires Fires([p] + rest)
    ensures (o == p || o in rest) && t in CoalesceFrom(true, p, rest) && Grew(o, t)
    decreases |rest|
  {
    var l, r := [p] + rest, CoalesceFrom(true, p, rest);
    assert r[0] in r;
    if Meets(true, p, rest[0]) { o, t := p, r[0]; }
    else {
      var i :| 0 <= i < |l| - 1 && Meets(true, l[i], l[i + 1]);
      var tail := [rest[0]] + rest[1..];
      assert tail[i - 1] == l[i] && tail[i] == l[i + 1];
      o, t := FiredGrows(rest[0], rest[1..]);
    }
  }

  /** The lowest block that grew. */
  lemma {:induction false} LowestGrown(l: seq<Block>, r: seq<Block>, o: Block, t: Block) returns (o': Block, t': Block)
    requires o in l && t in r && Grew(o, t)
    ensures o' in l && t' in r && Grew(o', t')
    ensures forall q, u :: q in l && u in r && Grew(q, u) ==> o'.at <= q.at
    decreases o.at
  {
    if q, u :| q in l && u in r && Grew(q, u) && q.at < o.at {
      o', t' := LowestGrown(l, r, q, u);
    } else {
      o', t' := o, t;
    }
  }

  // ----- The pass keeps the tiling exactly when the test never holds -----

  /** The byte behind the lowest block that grew: no block of the old tiling holds it. */
  lemma {:induction false} GapBehind(l: seq<Block>, r: seq<Block>, other: set<Block>, o: Block, t: Block, w: Block)
    requires l != [] && r == Coalesce(true, l) && Distinct(l) && Blocks(l) !! other
    requires Apart(Blocks(l) + other) && Apart(Blocks(r) + other)
    requires o in l && t in r && Grew(o, t) && (forall q, u :: q in l && u in r && Grew(q, u) ==> o.at <= q.at)
    requires w in Blocks(l) + other
    ensures !InBlock(w, End(o))
  {
    var s, s' := Blocks(l) + other, Blocks(r) + other;
    assert o in s && t in s';
    if w != o {
      assert Before(o, w) || Before(w, o);
      if w in other {
        assert w in s' && (Before(t, w) || Before(w, t));
      } else {
        var q, u := PassFate(l[0], l[1..], w);
        assert q in s && u in s';
        if Covers(u, w) { assert Before(t, u) || Before(u, t); }
        else if q != o { assert Before(o, q) || Before(q, o); }
      }
    }
  }

  /** The pass breaks the tiling when the test holds anywhere. */
  lemma {:induction false} PassBreaks(l: seq<Block>, other: set<Block>, frames: set<nat>)
    requires ListTiles(l, other, frames) && Fires(l)
    ensures !Tiles(Blocks(Coalesce(true, l)) + other, frames)
  {
    var s, r := Blocks(l) + other, Coalesce(true, l);
    var s' := Blocks(r) + other;
    assert [l[0]] + l[1..] == l;
    var o, t := FiredGrows(l[0], l[1..]);
    o, t := LowestGrown(l, r, o, t);
    if Apart(s') {
      forall w | w in s ensures !InBlock(w, End(o)) { GapBehind(l, r, other, o, t, w); }
      assert !Covered(s, End(o));
      CoveredBy(s', t, End(o));
    }
  }

  /** The exact condition, which a caller can test on the list: the tiling survives the pass if and only if
      no two list neighbours stand at the scaled distance. */
  lemma {:induction false} PassTilesExactly(l: seq<Block>, other: set<Block>, frames: set<nat>)
    requires ListTiles(l, other, frames)
    ensures ListTiles(Coalesce(true, l), other, frames) <==> !Fires(l)
  {
    if Fires(l) { PassBreaks(l, other, frames); } else { CoalesceListTiles(true, l, other, frames); }
  }

  // ----- Nor does taking a block repair it -----

  ghost predicate StartsApart(l: seq<Block>, other: set<Block>)
  {
    && (forall i, j :: 0 <= i < j < |l| ==> l[i].at != l[j].at)
    && (forall i, z :: 0 <= i < |l| && z in other ==> l[i].at != z.at)
  }

  lemma TilesStartApart(l: seq<Block>, other: set<Block>, frames: set<nat>)
    requires ListTiles(l, other, frames)
    ensures StartsApart(l, other)
  {
    var s := Blocks(l) + other;
    forall i, j | 0 <= i < j < |l| ensures l[i].at != l[j].at { assert l[i] in s && l[j] in s && l[i] != l[j]; }
    forall i, z | 0 <= i < |l| && z in other ensures l[i].at != z.at {
      assert l[i] in s && z in s && l[i] in Blocks(l);
    }
  }

  /** The pass only drops starts. */
  lemma {:induction false} PassStartsApart(p: Block, rest: seq<Block>, other: set<Block>)
    requires StartsApart([p] + rest, other)
    ensures StartsApart(CoalesceFrom(true, p, rest), other)
    decreases |rest|
  {
    var l := [p] + rest;
    if rest == [] { assert l == [p]; }
    else if Meets(true, p, rest[0]) {
      var m := [Merged(p, rest[0])] + rest[1..];
      assert forall i :: 0 < i < |m| ==> m[i] == l[i + 1];
      assert m[0].at == l[0].at;
      PassStartsApart(Merged(p, rest[0]), rest[1..], other);
    } else {
      var tail := [rest[0]] + rest[1..];
      assert tail == rest && forall i :: 0 <= i < |rest| ==> rest[i] == l[i + 1];
      assert l[0] == p;
      PassStartsApart(rest[0], rest[1..], other + {p});
    }
  }

  /** A heap that is well formed after a block was taken was tiled before. */
  lemma {:induction false} TakeReflects(h: Heap, i: nat, size: nat)
    requires i < |h.free| && h.free[i].size >= size && StartsApart(h.free, h.live.Keys) && HeapOk(Take(h, i, size))
    ensures Tiles(Blocks(h.free) + h.live.Keys, h.frames)
  {
    var b, g, x := h.free[i], Take(h, i, size), Given(h.free[i], size);
    var s, s' := Blocks(h.free) + h.live.Keys, Blocks(g.free) + g.live.Keys;
    assert g.live.Keys == h.live.Keys + {x};
    assert x !in h.live.Keys && b !in h.live.Keys;
    if Splits(b, size) {
      var y := g.free[i];
      assert g.free == h.free[i := y] && y in s' && x in s';
      SplitBack(h, i, x, y, s, s');
      MergeTiles(s', h.frames, x, y);
    } else {
      WithoutBlocks(h.free, i);
      assert s == s';
    }
  }

  lemma {:induction false} SplitBack(h: Heap, i: nat, x: Block, y: Block, s: set<Block>, s': set<Block>)
    requires i < |h.free| && StartsApart(h.free, h.live.Keys) && x.at == h.free[i].at && Merged(x, y) == h.free[i]
    requires Distinct(h.free[i := y]) && Blocks(h.free[i := y]) !! h.live.Keys + {x}
    requires s == Blocks(h.free) + h.live.Keys && s' == Blocks(h.free[i := y]) + (h.live.Keys + {x})
    ensures MergeIn(s', x, y) == s
  {
    var f := h.free[i := y];
    assert f[i] == y && h.free[i] in s;
    forall z | z in s && z != h.free[i] ensures z in s' && z != x && z != y {
      if z in h.live.Keys { assert y in Blocks(f); }
      else {
        var k :| 0 <= k < |h.free| && h.free[k] == z;
        assert f[k] == z;
      }
    }
    forall z | z in s' && z != x && z != y ensures z in s && z != h.free[i] {
      if z !in h.live.Keys {
        var k :| 0 <= k < |f| && f[k] == z;
        assert h.free[k] == z;
      }
    }
  }

  // ----- Runs of the heap as compiled -----

  lemma {:induction false} GrowBreaks(h: Heap, size: nat)
    requires HeapOk(h) && Grow(true, h, size).Some? && !GrowsHarmlessly(true, h, size)
    ensures
      var g := Grow(true, h, size).value;
      StartsApart(g.free, g.live.Keys) && !Tiles(Blocks(g.free) + g.live.Keys, g.frames)
  {
    var n := FramesFor(size);
    GrowFits(size);
    var b := FirstFit(h.used, h.limit, n).value;
    var l := Joined(h, b, n);
    JoinedTiles(h, b, n);
    PassBreaks(l, h.live.Keys, h.frames + Run(b, n));
    TilesStartApart(l, h.live.Keys, h.frames + Run(b, n));
    assert [l[0]] + l[1..] == l;
    PassStartsApart(l[0], l[1..], h.live.Keys);
  }

  lemma {:induction false} AllocBreaks(h: Heap, size: nat)
    requires HeapOk(h) && !AllocatesHarmlessly(true, h, size)
    ensures Alloc(true, h, size).Some? && !HeapOk(Alloc(true, h, size).value.0)
  {
    var g := Grow(true, h, size).value;
    GrowBreaks(h, size);
    GrowThenFits(true, h, size);
    var i := FirstFitFrom(g.free, size, 0).value;
    assert Alloc(true, h, size) == Alloc(true, g, size);
    if HeapOk(Take(g, i, size)) { TakeReflects(g, i, size); }
  }

  lemma {:induction false} FreeBreaks(h: Heap, b: Block)
    requires HeapOk(h) && b in h.live && Fires(Insert(h.free, b))
    ensures !HeapOk(Free(true, h, b))
  {
    InsertTiles(h, b);
    PassBreaks(Insert(h.free, b), h.live.Keys - {b}, h.frames);
    assert Free(true, h, b).live.Keys == h.live.Keys - {b};
  }

  /** One call keeps the heap well formed if and only if the test does not hold in the pass it makes. */
  lemma {:induction false} StepExactly(h: Heap, e: Event)
    requires HeapOk(h)
    ensures HeapOk(Step(true, h, e)) <==> StepsHarmlessly(true, h, e)
  {
    if StepsHarmlessly(true, h, e) { StepOk(true, h, e); }
    else {
      match e
      case Request(size) => AllocBreaks(h, size);
      case Release(b) => FreeBreaks(h, b);
    }
  }

  /** Well formed all along the run. */
  ghost predicate AlwaysOk(h: Heap, es: seq<Event>)
    decreases |es|
  {
    HeapOk(h) && (es != [] ==> AlwaysOk(Step(true, h, es[0]), es[1..]))
  }

  predicate AlwaysHarmless(h: Heap, es: seq<Event>)
    decreases |es|
  {
    es == [] || (StepsHarmlessly(true, h, es[0]) && AlwaysHarmless(Step(true, h, es[0]), es[1..]))
  }

  lemma {:induction false} CompiledRun(h: Heap, es: seq<Event>)
    requires HeapOk(h)
    ensures AlwaysOk(h, es) <==> AlwaysHarmless(h, es)
    decreases |es|
  {
    if es != [] {
      StepExactly(h, es[0]);
      if StepsHarmlessly(true, h, es[0]) { CompiledRun(Step(true, h, es[0]), es[1..]); }
    }
  }

  /** Conservation of the heap as compiled: over a run from the empty heap it stays well formed, so that
      every byte is in exactly one block, if and only if the scaled test never holds. */
  lemma {:induction false} CompiledConserves(used: set<nat>, limit: nat, es: seq<Event>)
    ensures AlwaysOk(Empty(used, limit), es) <==> AlwaysHarmless(Empty(used, limit), es)
  {
    CompiledRun(Empty(used, limit), es);
  }

  // ----- A run that breaks it -----

  const X := Block(4096, 0)
  const Y := Block(4864, 3304)
  const Z := Block(4120, 720)

  lemma FirstRequest(limit: nat)
    requires limit >= 2
    ensures Step(true, Empty({}, limit), Request(0)) == Heap([Block(4120, 4048)], map[X := 0], {1}, {1}, limit)
  {
    var h := Empty({}, limit);
    assert FramesFor(0) == 1 && Fits({}, limit, 1, 1);
    assert FirstFit({}, limit, 1) == Some(1);
    assert Run(1, 1) == {1};
    var g := Grow(true, h, 0).value;
    assert Joined(h, 1, 1) == [Block(4096, 4072)];
    assert g == Heap([Block(4096, 4072)], map[], {1}, {1}, limit);
    assert FirstFitFrom(g.free, 0, 0) == Some(0);
    assert Take(g, 0, 0) == Heap([Block(4120, 4048)], map[X := 0], {1}, {1}, limit);
    assert FirstFitFrom(h.free, 0, 0) == None;
    assert Alloc(true, h, 0) == Alloc(true, g, 0) == Some((Take(g, 0, 0), X));
  }

  lemma SecondRequest(limit: nat)
    ensures Step(true, Heap([Block(4120, 4048)], map[X := 0], {1}, {1}, limit), Request(720))
         == Heap([Y], map[X := 0, Z := 720], {1}, {1}, limit)
  {
    var h := Heap([Block(4120, 4048)], map[X := 0], {1}, {1}, limit);
    assert FirstFitFrom(h.free, 720, 0) == Some(0);
    assert Take(h, 0, 720).free == [Y];
  }

  lemma {:induction false} AfterFirst(h: Heap, e: Event, es: seq<Event>)
    ensures After(true, h, [e] + es) == After(true, Step(true, h, e), es)
  {
    assert ([e] + es)[1..] == es;
  }

  lemma {:induction false} AfterThree(h: Heap, a: Event, b: Event, c: Event)
    ensures After(true, h, [a, b, c]) == Step(true, Step(true, Step(true, h, a), b), c)
  {
    var h1 := Step(true, h, a);
    assert [a, b, c] == [a] + [b, c] && [b, c] == [b] + [c] && [c] == [c] + [];
    AfterFirst(h, a, [b, c]);
    AfterFirst(h1, b, [c]);
    AfterFirst(Step(true, h1, b), c, []);
  }

  /** Two allocations and a release after which the heap is no longer well formed: the released block absorbs
      one that stands 768 bytes on, across the 744 bytes of a live block. */
  lemma {:induction false} ScaledRunBreaks(limit: nat)
    requires limit >= 2
    ensures !HeapOk(After(true, Empty({}, limit), [Request(0), Request(720), Release(X)]))
  {
    var h1, h2 := Heap([Block(4120, 4048)], map[X := 0], {1}, {1}, limit),
                  Heap([Y], map[X := 0, Z := 720], {1}, {1}, limit);
    AfterThree(Empty({}, limit), Request(0), Request(720), Release(X));
    FirstRequest(limit);
    SecondRequest(limit);
    OneEntryHarmless(Empty({}, limit), 0);
    StepOk(true, Empty({}, limit), Request(0));
    StepOk(true, h1, Request(720));
    var l := Insert([Y], X);
    assert l == [X, Y] && Meets(true, l[0], l[1]);
    FreeBreaks(h2, X);
  }

  /** Growing an empty list makes a list without neighbours. */
  lemma OneEntryHarmless(h: Heap, size: nat)
    requires h.free == []
    ensures AllocatesHarmlessly(true, h, size)
  {
  }
}
