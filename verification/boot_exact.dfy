/** The exact condition under which a boot cannot be disturbed: no memory that others can get hold of decides
    a search the boot makes, or the one for the path in question. */
module BootExact {
  import opened Words
  import opened FrameAllocator
  import opened Strings
  import opened FileTree
  import opened FileCreation
  import opened BootArchive
  import opened BootFiles
  import opened BootTree
  import opened KeyedTree
  import opened BootKeys
  import opened Runs
  import AR = ArchiveReclaim
  import HT = HashTable
  import PT = PointerTable
  import TF = TempFiles

  // ----- A sure turn comes to the same -----

  lemma SetSame(ram: seq<Byte>, r: seq<Byte>, t: Vtree, d: nat, key: PT.Key, c: nat)
    requires d < |t.nodes| && t.nodes[d].table.Some? && |t.nodes[d].table.value| > 0
    requires PT.Spelt(r, key) == PT.Spelt(ram, key)
    requires
      var b, name := t.nodes[d].table.value, PT.Spelt(ram, key);
      PT.Found(r, b, name) == PT.Found(ram, b, name)
    ensures SetIn(r, t, d, key, c) == SetIn(ram, t, d, key, c)
  {
  }

  lemma LiteralSet(ram: seq<Byte>, r: seq<Byte>, t: Vtree, n: nat, name: Text, c: nat)
    requires n < |t.nodes| && t.nodes[n].table.Some? && |t.nodes[n].table.value| > 0
    requires PT.Literal(t.nodes[n].table.value)
    ensures SetIn(r, t, n, PT.Lit(name), c) == SetIn(ram, t, n, PT.Lit(name), c)
    ensures PT.Literal(SetIn(ram, t, n, PT.Lit(name), c).nodes[n].table.value)
  {
    var b := t.nodes[n].table.value;
    PT.LiteralSame(ram, r, b);
    var i := HT.Index(name, |b|);
    assert PT.Read(r, b)[i] == PT.Read(ram, b)[i];
    SetSame(ram, r, t, n, PT.Lit(name), c);
    var u: PT.Table := SetIn(ram, t, n, PT.Lit(name), c).nodes[n].table.value;
    forall k: nat, j: nat | k < |u| && j < |u[k]| ensures u[k][j].key.Lit? {
      if j < |b[k]| { assert b[k][j].key.Lit?; }
    }
  }

  lemma DotsSame(ram: seq<Byte>, r: seq<Byte>, t: Vtree, parent: nat, n: nat)
    requires n < |t.nodes| && t.nodes[n].table.Some? && |t.nodes[n].table.value| > 0
    requires PT.Literal(t.nodes[n].table.value)
    ensures AddDots(r, t, parent, n) == AddDots(ram, t, parent, n)
  {
    var u, k := WithLinks(t, parent, n), |t.nodes|;
    LiteralSet(ram, r, u, n, DOT, k);
    LiteralSet(ram, r, SetIn(ram, u, n, PT.Lit(DOT), k), n, DOTDOT, k + 1);
  }

  lemma MadeSame(ram: seq<Byte>, r: seq<Byte>, t: Vtree, d: nat, key: PT.Key, dir: bool)
    requires VtreeOk(t) && d < |t.nodes| && t.nodes[d].table.Some? && |t.nodes[d].table.value| > 0
    requires PT.Spelt(ram, key) != [] && key.Mem? && PT.Spelt(r, key) == PT.Spelt(ram, key)
    requires
      var b, name := t.nodes[d].table.value, PT.Spelt(ram, key);
      PT.Found(r, b, name) == PT.Found(ram, b, name)
    ensures Made(r, t, d, key, dir) == Made(ram, t, d, key, dir)
  {
    var n := |t.nodes|;
    SetSame(ram, r, Grown(t, [Blank(dir)]), d, key, n);
    AddVnodeOk(ram, t, d, key, dir);
    if dir {
      var u := AddVnode(ram, t, d, key, dir);
      assert u.nodes[n].table.value == PT.Blank(TABLE_SIZE) && PT.Literal(PT.Blank(TABLE_SIZE));
      DotsSame(ram, r, u, d, n);
    }
  }

  /** The next turn's searches are sure of their answers. */
  ghost predicate SureNext(q: Sys, w: Plan, j: nat)
    requires SysOk(q) && ProperAt(w, j)
  {
    var it := ItemOf(EntryAt(w, j).image);
    it.Some? ==> SurePath(q.boot.ram, q.tree, AR.Open(q.boot), TopOf(q), Segs(it.value.path))
  }

  lemma PlacedAgrees(s: Sys, q: Sys, w: Plan, j: nat, it: Item, d: nat)
    requires PlanOk(w) && On(s, w, j) && On(q, w, j) && Agree(s, q) && j < |w.sizes| && ProperAt(w, j)
    requires ItemOf(EntryAt(w, j).image) == Some(it) && d < |q.tree.nodes| && q.tree.nodes[d].table.Some?
    requires it.path != [] && q.boot.p + |it.path| <= |q.boot.ram|
    requires PT.Spelt(q.boot.ram, KeyOf(q.boot.p, it.path)) != []
    requires PT.Spelt(s.boot.ram, KeyOf(q.boot.p, it.path)) == PT.Spelt(q.boot.ram, KeyOf(q.boot.p, it.path))
    requires PT.Spelt(q.boot.ram, KeyOf(q.boot.p, it.path)) == BaseName(it.path)
    requires TF.Room(TF.Created(), |it.data|, 0, w.junks[j])
    requires SureStep(q.boot.ram, q.tree, AR.Open(q.boot), d, BaseName(it.path))
    ensures Agree(Placed(s, it, w.junks[j], d), Placed(q, it, w.junks[j], d))
  {
    WalkAgrees(s, q, w, j);
    TrimAgrees(q.boot.ram, s.boot.ram, AR.Open(AR.Turned(q.boot, AR.Advance)), q.boot.p, it.path);
    PT.SureStays(q.boot.ram, s.boot.ram, q.tree.nodes[d].table.value, AR.Open(q.boot), BaseName(it.path));
    MadeSame(q.boot.ram, s.boot.ram, q.tree, d, KeyOf(q.boot.p, it.path), it.dir);
  }

  /** A turn whose searches are sure leaves two boots that agree in agreement. */
  lemma {:induction false} SureTurnAgrees(s: Sys, q: Sys, w: Plan, j: nat)
    requires PlanOk(w) && On(s, w, j) && On(q, w, j) && Agree(s, q) && j < |w.sizes| && ProperAt(w, j)
    requires SureNext(q, w, j) && !Advanced(q, w.junks).halted
    ensures On(Advanced(s, w.junks), w, j + 1) && On(Advanced(q, w.junks), w, j + 1)
    ensures Agree(Advanced(s, w.junks), Advanced(q, w.junks))
  {
    if ItemOf(EntryAt(w, j).image).None? {
      AdvanceSkips(s, w, j);
      AdvanceSkips(q, w, j);
      SkippedOn(s, w, j);
      SkippedOn(q, w, j);
      WalkAgrees(s, q, w, j);
    } else {
      SureItemAgrees(s, q, w, j, ItemOf(EntryAt(w, j).image).value);
    }
  }

  /** A turn that does not halt has a place for its item. */
  lemma PlaceOf(q: Sys, w: Plan, j: nat, it: Item, v: Tree, segs: seq<Text>) returns (d: nat)
    requires PlanOk(w) && On(q, w, j) && j < |w.sizes| && ProperAt(w, j) && ItemOf(EntryAt(w, j).image) == Some(it)
    requires v == View(q.boot.ram, q.tree) && segs == Segs(it.path) && !Advanced(q, w.junks).halted
    ensures TreeOk(v) && segs != [] && AllGood(segs) && BaseName(it.path) == segs[|segs| - 1]
    ensures Spot(v, segs) == Some(d) && d < |q.tree.nodes| && q.tree.nodes[d].table.Some?
  {
    ViewOk(q.boot.ram, q.tree);
    NameOf(it.path);
    d := SpotOf(q, w, j, it, v, segs);
  }

  lemma NameOf(path: Text)
    requires Ordinary(path)
    ensures Segs(path) != [] && AllGood(Segs(path)) && BaseName(path) == Segs(path)[|Segs(path)| - 1]
  {
    var segs, k, e := PathParts(path);
  }

  lemma SpotOf(q: Sys, w: Plan, j: nat, it: Item, v: Tree, segs: seq<Text>) returns (d: nat)
    requires PlanOk(w) && On(q, w, j) && j < |w.sizes| && ProperAt(w, j) && ItemOf(EntryAt(w, j).image) == Some(it)
    requires v == View(q.boot.ram, q.tree) && TreeOk(v) && segs == Segs(it.path) && segs != []
    requires !Advanced(q, w.junks).halted
    ensures Spot(v, segs) == Some(d)
  {
    if Spot(v, segs).None? { AdvanceHalts(q, w, j, it, v); }
    d := Spot(v, segs).value;
  }

  lemma {:induction false} SureItemAgrees(s: Sys, q: Sys, w: Plan, j: nat, it: Item)
    requires PlanOk(w) && On(s, w, j) && On(q, w, j) && Agree(s, q) && j < |w.sizes| && ProperAt(w, j)
    requires ItemOf(EntryAt(w, j).image) == Some(it) && SureNext(q, w, j) && !Advanced(q, w.junks).halted
    ensures On(Advanced(s, w.junks), w, j + 1) && On(Advanced(q, w.junks), w, j + 1)
    ensures Agree(Advanced(s, w.junks), Advanced(q, w.junks))
  {
    var d := PlaceOf(q, w, j, it, View(q.boot.ram, q.tree), Segs(it.path));
    SureSpot(q.boot.ram, s.boot.ram, q.tree, AR.Open(q.boot), Segs(it.path), d);
    ItemStands(s, w, j, it);
    ItemStands(q, w, j, it);
    AdvancePlaces(s, w, j, it, View(s.boot.ram, s.tree), d);
    AdvancePlaces(q, w, j, it, View(q.boot.ram, q.tree), d);
    PlacedOn(s, w, j, it, d);
    PlacedOn(q, w, j, it, d);
    PlacedAgrees(s, q, w, j, it, d);
  }

  // ----- Whole runs -----

  /** A turn that does not halt is before the next member. */
  lemma TurnOn(q: Sys, w: Plan, j: nat)
    requires PlanOk(w) && On(q, w, j) && j < |w.sizes| && ProperAt(w, j) && !Advanced(q, w.junks).halted
    ensures On(Advanced(q, w.junks), w, j + 1)
  {
    var x := ItemOf(EntryAt(w, j).image);
    if x.None? {
      AdvanceSkips(q, w, j);
      SkippedOn(q, w, j);
    } else {
      var d := PlaceOf(q, w, j, x.value, View(q.boot.ram, q.tree), Segs(x.value.path));
      ItemStands(q, w, j, x.value);
      AdvancePlaces(q, w, j, x.value, View(q.boot.ram, q.tree), d);
      PlacedOn(q, w, j, x.value, d);
    }
  }

  /** The j-th turn of a boot that nobody else disturbs. */
  ghost predicate QuietTurn(qs: seq<Sys>, w: Plan, j: nat)
  {
    && j + 1 < |qs| && j < |w.sizes| && ProperAt(w, j) && On(qs[j], w, j) && On(qs[j + 1], w, j + 1)
    && qs[j + 1] == Advanced(qs[j], w.junks)
  }

  /** The whole of it: it meets no failed assertion. */
  ghost predicate QuietRun(qs: seq<Sys>, w: Plan)
  {
    && PlanOk(w) && |qs| == |w.sizes| + 1 && (forall j: nat :: j < |w.sizes| ==> QuietTurn(qs, w, j))
    && On(qs[|w.sizes|], w, |w.sizes|)
  }

  /** All its searches are sure of their answers. */
  ghost predicate SureAll(qs: seq<Sys>, w: Plan)
  {
    forall j: nat :: j < |w.sizes| ==> SureTurnAt(qs, w, j)
  }

  ghost predicate SureTurnAt(qs: seq<Sys>, w: Plan, j: nat)
  {
    j < |qs| && SysOk(qs[j]) && ProperAt(w, j) && SureNext(qs[j], w, j)
  }

  /** The boot agrees with the quiet one after j turns. */
  ghost predicate Beside(s: Sys, qs: seq<Sys>, w: Plan, j: nat)
  {
    j < |qs| && j <= |w.sizes| && On(s, w, j) && Agree(s, qs[j])
  }

  function Onward(w: Plan): (nat, AR.Turn) -> nat { (j: nat,
                  t: AR.Turn) => if t.Advance? && j < |w.sizes| then j + 1 else j }

  lemma {:induction false} SureOther(s: Sys, qs: seq<Sys>, w: Plan, j: nat, t: AR.Turn)
    requires QuietRun(qs, w) && Beside(s, qs, w, j) && !t.Advance?
    ensures Beside(Turn(s, w.junks, t), qs, w, j)
  {
    OtherOn(s, w, j, t);
    OtherAgrees(s, qs[j], w.junks, t);
  }

  lemma {:induction false} SureAdvance(s: Sys, qs: seq<Sys>, w: Plan, j: nat)
    requires QuietRun(qs, w) && SureAll(qs, w) && Beside(s, qs, w, j) && j < |w.sizes|
    ensures Beside(Advanced(s, w.junks), qs, w, j + 1)
  {
    assert QuietTurn(qs, w, j) && SureTurnAt(qs, w, j);
    SureTurnAgrees(s, qs[j], w, j);
  }

  lemma {:induction false} SureTurn(s: Sys, qs: seq<Sys>, w: Plan, j: nat, t: AR.Turn)
    requires QuietRun(qs, w) && SureAll(qs, w) && Beside(s, qs, w, j)
    ensures Beside(Turner(w.junks)(s, t), qs, w, Onward(w)(j, t))
  {
    if !t.Advance? { SureOther(s, qs, w, j, t); }
    else if j < |w.sizes| { SureAdvance(s, qs, w, j); }
    else { AdvanceEnds(s, w, j); }
  }

  lemma {:induction false} Passes(w: Plan, j: nat, ts: seq<AR.Turn>)
    requires j <= |w.sizes|
    ensures Count(Onward(w), j, ts) == Min(j + AR.Advances(ts), |w.sizes|)
    decreases |ts|
  {
    if ts != [] { Passes(w, Onward(w)(j, ts[0]), ts[1..]); }
  }

  ghost function BesideAll(qs: seq<Sys>, w: Plan): (Sys, nat) -> bool { (x: Sys, j: nat) => Beside(x, qs, w, j) }

  lemma SureKeeps(qs: seq<Sys>, w: Plan, step: (Sys, AR.Turn) -> Sys, inv: (Sys, nat) -> bool,
                  next: (nat, AR.Turn) -> nat)
    requires QuietRun(qs, w) && SureAll(qs, w) && step == Turner(w.junks) && inv == BesideAll(qs, w)
    requires next == Onward(w)
    ensures forall x, j, t :: inv(x, j) ==> inv(step(x, t), next(j, t))
  {
    forall x, j, t | inv(x, j) ensures inv(step(x, t), next(j, t)) { SureTurn(x, qs, w, j, t); }
  }

  lemma BesideIs(qs: seq<Sys>, w: Plan, inv: (Sys, nat) -> bool, c: Sys, j: nat)
    requires inv == BesideAll(qs, w)
    ensures inv(c, j) <==> Beside(c, qs, w, j)
  {
  }

  lemma {:induction false} PlayToEnd(s: Sys, w: Plan, ts: seq<AR.Turn>, step: (Sys, AR.Turn) -> Sys,
                                     inv: (Sys, nat) -> bool,
                                     next: (nat, AR.Turn) -> nat, c: Sys)
    requires inv(s, 0) && (forall x, j, t :: inv(x, j) ==> inv(step(x, t), next(j, t))) && next == Onward(w)
    requires AR.Advances(ts) >= |w.sizes| && c == Play(step, s, ts)
    ensures inv(c, |w.sizes|)
  {
    PlayKeeps(step, inv, next, s, 0, ts);
    Passes(w, 0, ts);
  }

  /** When they are, every boot ends beside the quiet one. */
  lemma {:induction false} SureRun(s: Sys, qs: seq<Sys>, w: Plan, ts: seq<AR.Turn>, c: Sys)
    requires QuietRun(qs, w) && SureAll(qs, w) && Beside(s, qs, w, 0) && AR.Advances(ts) >= |w.sizes|
    requires c == Turns(s, w.junks, ts)
    ensures Beside(c, qs, w, |w.sizes|)
  {
    var step, inv, next, n := Turner(w.junks), BesideAll(qs, w), Onward(w), |w.sizes|;
    SureKeeps(qs, w, step, inv, next);
    BesideIs(qs, w, inv, s, 0);
    PlayToEnd(s, w, ts, step, inv, next, c);
    BesideIs(qs, w, inv, c, n);
  }
}
