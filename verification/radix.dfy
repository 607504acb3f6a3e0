/** The shape of a forest of 4-level page tables, over an abstract store of entries.
    Every table frame has a place: the root it was first built under (home), the
    indices that lead to it (path), and the table whose entry points at it (parent).
    Tables under root indices 256..511 may be reached from several roots. */
module RadixTree {
  import opened Words

  /** The entry stored at index i of frame f. */
  type Store = (nat, nat) -> nat

  datatype Place = Place(home: nat, path: seq<nat>, parent: nat)
  type Places = map<nat, Place>

  predicate Present(e: nat) { e % 2 == 1 }

  /** The frame number selected by PTE_ADDR_MASK, bits 12..51. */
  function FrameOf(e: nat): nat { e / FRAME % 0x100_0000_0000 }

  function Last(p: seq<nat>): nat requires p != [] { p[|p| - 1] }
  function Front(p: seq<nat>): seq<nat> requires p != [] { p[..|p| - 1] }

  predicate Indices(p: seq<nat>) { forall k :: 0 <= k < |p| ==> p[k] < 512 }

  predicate PlaceOk(t: Places, f: nat)
    requires f in t
  {
    && |t[f].path| <= 3 && Indices(t[f].path)
    && (t[f].path == [] ==> t[f].home == f)
    && (t[f].path != [] ==>
          && t[f].parent in t
          && t[t[f].parent].home == t[f].home
          && t[t[f].parent].path == Front(t[f].path))
  }

  ghost predicate Placed(t: Places)
  {
    forall f {:trigger PlaceOk(t, f)} :: f in t ==> PlaceOk(t, f)
  }

  predicate Child(t: Places, f: nat, i: nat, g: nat)
    requires f in t
  {
    && g in t && t[g].path == t[f].path + [i]
    && (t[g].home == t[f].home || (t[f].path == [] && i >= 256))
  }

  ghost predicate LinkedDown(s: Store, t: Places)
  {
    forall f, i {:trigger s(f, i)} ::
      f in t && |t[f].path| < 3 && 0 <= i < 512 && Present(s(f, i)) ==> Child(t, f, i, FrameOf(s(f, i)))
  }

  predicate UpOk(s: Store, t: Places, g: nat)
    requires g in t && t[g].path != []
  {
    Present(s(t[g].parent, Last(t[g].path))) && FrameOf(s(t[g].parent, Last(t[g].path))) == g
  }

  ghost predicate LinkedUp(s: Store, t: Places)
  {
    forall g {:trigger UpOk(s, t, g)} :: g in t && t[g].path != [] ==> UpOk(s, t, g)
  }

  ghost predicate Forest(s: Store, t: Places)
  {
    Placed(t) && LinkedDown(s, t) && LinkedUp(s, t)
  }

  predicate Root(t: Places, f: nat) { f in t && t[f].path == [] }

  /** The table reached from f by following idx, if every step is present. */
  function Reach(s: Store, f: nat, idx: seq<nat>): Option<nat>
    decreases |idx|
  {
    if idx == [] then Some(f)
    else if Present(s(f, idx[0])) then Reach(s, FrameOf(s(f, idx[0])), idx[1..])
    else None
  }

  /** The last-level entry for idx followed by i; 0 when a table on the way is missing. */
  function Leaf(s: Store, f: nat, idx: seq<nat>, i: nat): nat
  {
    match Reach(s, f, idx)
    case None => 0
    case Some(g) => s(g, i)
  }

  // ----- Where a walk can end -----

  lemma {:induction false} ReachPlaced(s: Store, t: Places, f: nat, idx: seq<nat>)
    requires LinkedDown(s, t) && f in t && |t[f].path| + |idx| <= 3 && Indices(idx)
    ensures
      match Reach(s, f, idx)
      case None => true
      case Some(g) =>
        && g in t && t[g].path == t[f].path + idx
        && (t[g].home == t[f].home || (t[f].path == [] && idx != [] && idx[0] >= 256))
    decreases |idx|
  {
    if idx == [] {
      assert t[f].path + idx == t[f].path;
    } else if Present(s(f, idx[0])) {
      var h := FrameOf(s(f, idx[0]));
      assert Child(t, f, idx[0], h);
      ReachPlaced(s, t, h, idx[1..]);
      assert t[f].path + [idx[0]] + idx[1..] == t[f].path + idx;
    }
  }

  /** A place holds at most one table. */
  lemma {:induction false} PlaceUnique(s: Store, t: Places, x: nat, y: nat)
    requires Forest(s, t) && x in t && y in t
    requires t[x].home == t[y].home && t[x].path == t[y].path
    ensures x == y
    decreases |t[x].path|
  {
    assert PlaceOk(t, x) && PlaceOk(t, y);
    if t[x].path != [] {
      assert UpOk(s, t, x) && UpOk(s, t, y);
      PlaceUnique(s, t, t[x].parent, t[y].parent);
    }
  }

  /** Two roots use the same root-level entry for index i. */
  predicate Shares(s: Store, a: nat, b: nat, i: nat)
  {
    a == b || (i >= 256 && Present(s(a, i)) && Present(s(b, i)) && FrameOf(s(a, i)) == FrameOf(s(b, i)))
  }

  lemma {:induction false} UpperMeet(s: Store, t: Places, a: nat, b: nat, idx: seq<nat>)
    requires Forest(s, t) && Root(t, a) && Root(t, b)
    requires |idx| == 3 && Indices(idx)
    requires Reach(s, a, idx).Some? && Reach(s, b, idx) == Reach(s, a, idx)
    ensures FrameOf(s(a, idx[0])) == FrameOf(s(b, idx[0]))
  {
    var x, y := FrameOf(s(a, idx[0])), FrameOf(s(b, idx[0]));
    assert Child(t, a, idx[0], x) && Child(t, b, idx[0], y);
    ReachPlaced(s, t, x, idx[1..]);
    ReachPlaced(s, t, y, idx[1..]);
    PlaceUnique(s, t, x, y);
  }

  lemma {:induction false} MeetShares(s: Store, t: Places, a: nat, b: nat, idx: seq<nat>, jdx: seq<nat>)
    requires Forest(s, t) && Root(t, a) && Root(t, b)
    requires |idx| == |jdx| == 3 && Indices(idx) && Indices(jdx)
    requires Reach(s, a, idx).Some? && Reach(s, b, jdx) == Reach(s, a, idx)
    ensures idx == jdx && Shares(s, a, b, idx[0])
  {
    ReachPlaced(s, t, a, idx);
    ReachPlaced(s, t, b, jdx);
    assert [] + idx == idx && [] + jdx == jdx;
    assert PlaceOk(t, a) && PlaceOk(t, b);
    if idx[0] >= 256 {
      UpperMeet(s, t, a, b, idx);
    }
  }

  /** Walks from two roots meet in one last-level table exactly when they follow the same
      indices and the roots share the root-level entry. */
  lemma {:induction false} MeetOnlyShared(s: Store, t: Places, a: nat, b: nat, idx: seq<nat>, jdx: seq<nat>)
    requires Forest(s, t) && Root(t, a) && Root(t, b)
    requires |idx| == |jdx| == 3 && Indices(idx) && Indices(jdx)
    requires Reach(s, a, idx).Some?
    ensures Reach(s, b, jdx) == Reach(s, a, idx) <==> idx == jdx && Shares(s, a, b, idx[0])
  {
    if Reach(s, b, jdx) == Reach(s, a, idx) {
      MeetShares(s, t, a, b, idx, jdx);
    }
  }

  // ----- Steps on the store -----

  /** s' differs from s, on the frames of t, only at (f, i). */
  ghost predicate SameBut(s: Store, s': Store, t: Places, f: nat, i: nat)
  {
    forall g, j {:trigger s'(g, j)} ::
      g in t && 0 <= j < 512 && !(g == f && j == i) ==> s'(g, j) == s(g, j)
  }

  ghost predicate Same(s: Store, s': Store, t: Places)
  {
    forall g, j {:trigger s'(g, j)} :: g in t && 0 <= j < 512 ==> s'(g, j) == s(g, j)
  }

  ghost predicate Blank(s: Store, g: nat, lo: nat, hi: nat)
  {
    forall j {:trigger s(g, j)} :: lo <= j < hi ==> s(g, j) == 0
  }

  function Grown(t: Places, f: nat, i: nat, g: nat): Places
    requires f in t
  {
    t[g := Place(t[f].home, t[f].path + [i], f)]
  }

  /** The store gains a blank table g, linked from the vacant entry (f, i). */
  ghost predicate Grows(s: Store, s': Store, t: Places, f: nat, i: nat, g: nat)
  {
    && f in t && |t[f].path| < 3 && i < 512 && g !in t
    && !Present(s(f, i))
    && SameBut(s, s', t, f, i)
    && Present(s'(f, i)) && FrameOf(s'(f, i)) == g
    && Blank(s', g, 0, 512)
  }

  lemma GrowPlaced(s: Store, s': Store, t: Places, f: nat, i: nat, g: nat)
    requires Placed(t) && Grows(s, s', t, f, i, g)
    ensures Placed(Grown(t, f, i, g))
  {
    var t' := Grown(t, f, i, g);
    assert PlaceOk(t, f);
    forall x | x in t' ensures PlaceOk(t', x) {
      if x == g {
        assert Front(t[f].path + [i]) == t[f].path;
      } else {
        assert PlaceOk(t, x);
      }
    }
  }

  lemma GrowDown(s: Store, s': Store, t: Places, f: nat, i: nat, g: nat)
    requires LinkedDown(s, t) && Grows(s, s', t, f, i, g)
    ensures LinkedDown(s', Grown(t, f, i, g))
  {
    var t' := Grown(t, f, i, g);
    forall x, j | x in t' && |t'[x].path| < 3 && 0 <= j < 512 && Present(s'(x, j))
      ensures Child(t', x, j, FrameOf(s'(x, j)))
    {
      if x != g && !(x == f && j == i) {
        assert s'(x, j) == s(x, j);
        assert Child(t, x, j, FrameOf(s(x, j)));
      }
    }
  }

  lemma GrowUp(s: Store, s': Store, t: Places, f: nat, i: nat, g: nat)
    requires Placed(t) && LinkedUp(s, t) && Grows(s, s', t, f, i, g)
    ensures LinkedUp(s', Grown(t, f, i, g))
  {
    var t' := Grown(t, f, i, g);
    forall x | x in t' && t'[x].path != [] ensures UpOk(s', t', x) {
      if x != g {
        assert PlaceOk(t, x) && UpOk(s, t, x);
        assert s'(t[x].parent, Last(t[x].path)) == s(t[x].parent, Last(t[x].path));
      }
    }
  }

  lemma GrowForest(s: Store, s': Store, t: Places, f: nat, i: nat, g: nat)
    requires Forest(s, t) && Grows(s, s', t, f, i, g)
    ensures Forest(s', Grown(t, f, i, g))
  {
    GrowPlaced(s, s', t, f, i, g);
    GrowDown(s, s', t, f, i, g);
    GrowUp(s, s', t, f, i, g);
  }

  lemma BlankLeaf(s: Store, g: nat, idx: seq<nat>, j: nat)
    requires Blank(s, g, 0, 512) && Indices(idx) && j < 512
    ensures Leaf(s, g, idx, j) == 0
  {
    if idx != [] { assert s(g, idx[0]) == 0; }
  }

  /** Growing the tree changes no translation. */
  lemma {:induction false} GrowKeepsLeaf(s: Store, s': Store, t: Places, f: nat, i: nat, g: nat,
                                         h: nat, idx: seq<nat>, j: nat)
    requires Forest(s, t) && Grows(s, s', t, f, i, g)
    requires h in t && |t[h].path| + |idx| == 3 && Indices(idx) && j < 512
    ensures Leaf(s', h, idx, j) == Leaf(s, h, idx, j)
    decreases |idx|
  {
    if idx == [] {
      assert h != f;
    } else if h == f && idx[0] == i {
      assert Reach(s', h, idx) == Reach(s', g, idx[1..]);
      BlankLeaf(s', g, idx[1..], j);
    } else {
      assert s'(h, idx[0]) == s(h, idx[0]);
      if Present(s(h, idx[0])) {
        assert Child(t, h, idx[0], FrameOf(s(h, idx[0])));
        GrowKeepsLeaf(s, s', t, f, i, g, FrameOf(s(h, idx[0])), idx[1..], j);
      }
    }
  }

  /** Tables once reached stay reached while the tree grows. */
  lemma {:induction false} GrowKeepsReach(s: Store, s': Store, t: Places, f: nat, i: nat, g: nat,
                                          h: nat, idx: seq<nat>)
    requires Forest(s, t) && Grows(s, s', t, f, i, g)
    requires h in t && |t[h].path| + |idx| <= 3 && Indices(idx) && Reach(s, h, idx).Some?
    ensures Reach(s', h, idx) == Reach(s, h, idx)
    decreases |idx|
  {
    if idx != [] {
      assert Child(t, h, idx[0], FrameOf(s(h, idx[0])));
      GrowKeepsReach(s, s', t, f, i, g, FrameOf(s(h, idx[0])), idx[1..]);
    }
  }

  /** Writing an entry of a last-level table keeps the forest and every walk. */
  lemma WriteForest(s: Store, s': Store, t: Places, g: nat, i: nat)
    requires Forest(s, t) && g in t && |t[g].path| == 3 && SameBut(s, s', t, g, i)
    ensures Forest(s', t)
  {
    forall x, j | x in t && |t[x].path| < 3 && 0 <= j < 512 && Present(s'(x, j))
      ensures Child(t, x, j, FrameOf(s'(x, j)))
    {
      assert s'(x, j) == s(x, j);
    }
    forall x | x in t && t[x].path != [] ensures UpOk(s', t, x) {
      assert PlaceOk(t, x) && UpOk(s, t, x) && PlaceOk(t, t[x].parent);
      assert s'(t[x].parent, Last(t[x].path)) == s(t[x].parent, Last(t[x].path));
    }
  }

  lemma {:induction false} WriteKeepsReach(s: Store, s': Store, t: Places, g: nat, i: nat, h: nat, idx: seq<nat>)
    requires Forest(s, t) && g in t && |t[g].path| == 3 && SameBut(s, s', t, g, i)
    requires h in t && |t[h].path| + |idx| <= 3 && Indices(idx)
    ensures Reach(s', h, idx) == Reach(s, h, idx)
    decreases |idx|
  {
    if idx != [] {
      assert s'(h, idx[0]) == s(h, idx[0]);
      if Present(s(h, idx[0])) {
        assert Child(t, h, idx[0], FrameOf(s(h, idx[0])));
        WriteKeepsReach(s, s', t, g, i, FrameOf(s(h, idx[0])), idx[1..]);
      }
    }
  }

  // ----- A new root that copies the upper half of an old one -----

  function Rooted(t: Places, r: nat): Places { t[r := Place(r, [], r)] }

  ghost predicate AddsRoot(s: Store, s': Store, t: Places, k: nat, r: nat)
  {
    && Root(t, k) && r !in t
    && Same(s, s', t)
    && Blank(s', r, 0, 256)
    && forall j {:trigger s'(r, j)} :: 256 <= j < 512 ==> s'(r, j) == s(k, j)
  }

  lemma RootDown(s: Store, s': Store, t: Places, k: nat, r: nat)
    requires LinkedDown(s, t) && AddsRoot(s, s', t, k, r)
    ensures LinkedDown(s', Rooted(t, r))
  {
    var t' := Rooted(t, r);
    forall x, j | x in t' && |t'[x].path| < 3 && 0 <= j < 512 && Present(s'(x, j))
      ensures Child(t', x, j, FrameOf(s'(x, j)))
    {
      var o := if x == r then k else x;
      assert s'(x, j) == s(o, j);
      assert Child(t, o, j, FrameOf(s(o, j)));
    }
  }

  lemma RootUp(s: Store, s': Store, t: Places, k: nat, r: nat)
    requires Placed(t) && LinkedUp(s, t) && AddsRoot(s, s', t, k, r)
    ensures LinkedUp(s', Rooted(t, r))
  {
    var t' := Rooted(t, r);
    forall x | x in t' && t'[x].path != [] ensures UpOk(s', t', x) {
      assert PlaceOk(t, x) && UpOk(s, t, x);
      assert s'(t[x].parent, Last(t[x].path)) == s(t[x].parent, Last(t[x].path));
    }
  }

  lemma RootForest(s: Store, s': Store, t: Places, k: nat, r: nat)
    requires Forest(s, t) && AddsRoot(s, s', t, k, r)
    ensures Forest(s', Rooted(t, r))
  {
    forall x | x in Rooted(t, r) ensures PlaceOk(Rooted(t, r), x) {
      if x != r { assert PlaceOk(t, x); }
    }
    RootDown(s, s', t, k, r);
    RootUp(s, s', t, k, r);
  }

  lemma {:induction false} SameKeepsReach(s: Store, s': Store, t: Places, h: nat, idx: seq<nat>)
    requires Forest(s, t) && Same(s, s', t)
    requires h in t && |t[h].path| + |idx| <= 3 && Indices(idx)
    ensures Reach(s', h, idx) == Reach(s, h, idx)
    ensures Reach(s, h, idx).Some? ==> Reach(s, h, idx).value in t
    decreases |idx|
  {
    if idx != [] {
      assert s'(h, idx[0]) == s(h, idx[0]);
      if Present(s(h, idx[0])) {
        assert Child(t, h, idx[0], FrameOf(s(h, idx[0])));
        SameKeepsReach(s, s', t, FrameOf(s(h, idx[0])), idx[1..]);
      }
    }
  }

  /** The new root translates nothing in the lower half and, in the upper half, what k does. */
  lemma RootLeaf(s: Store, s': Store, t: Places, k: nat, r: nat, idx: seq<nat>, j: nat)
    requires Forest(s, t) && AddsRoot(s, s', t, k, r)
    requires |idx| == 3 && Indices(idx) && j < 512
    ensures Leaf(s', r, idx, j) == if idx[0] < 256 then 0 else Leaf(s, k, idx, j)
  {
    if idx[0] >= 256 {
      assert s'(r, idx[0]) == s(k, idx[0]);
      if Present(s(k, idx[0])) {
        assert Child(t, k, idx[0], FrameOf(s(k, idx[0])));
        SameKeepsReach(s, s', t, FrameOf(s(k, idx[0])), idx[1..]);
      }
    } else {
      assert !Present(s'(r, idx[0]));
    }
  }
}
