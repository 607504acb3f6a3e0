/** Where a search of the boot is not sure of its answer, others can take frames and write to them so that the
    boot comes to something else. With BootExact this makes the condition exact. */
module BootDisturb {
  import opened Words
  import opened FrameAllocator
  import opened Strings
  import opened FileTree
  import opened FileCreation
  import opened BootArchive
  import opened BootFiles
  import opened BootTree
  import opened KeyedTree
  import opened BootKeys
  import opened BootExact
  import opened Runs
  import AR = ArchiveReclaim
  import HT = HashTable
  import PT = PointerTable
  import TF = TempFiles

  // ----- Bringing memory about -----

  lemma {:induction false} OthersOnly(s: Sys, junks: seq<seq<Byte>>, ts: seq<AR.Turn>)
    requires SysOk(s) && !s.halted && AR.Advances(ts) == 0
    ensures Turns(s, junks, ts) == s.(boot := AR.AllTurned(s.boot, ts))
    decreases |ts|
  {
    if ts != [] { OthersOnly(s.(boot := AR.Turned(s.boot, ts[0])), junks, ts[1..]); }
  }

  /** Any memory that differs in open frames only can be had, with nothing else changed. */
  lemma BringAbout(s: Sys, junks: seq<seq<Byte>>, r: seq<Byte>) returns (ts: seq<AR.Turn>, b: AR.Boot)
    requires SysOk(s) && !s.halted && PT.Outside(s.boot.ram, r, AR.Open(s.boot))
    ensures AR.Advances(ts) == 0 && Turns(s, junks, ts) == s.(boot := b) && AR.Meanwhile(s.boot, b) && b.ram == r
  {
    ts := AR.Reach(s.boot, r);
    b := AR.AllTurned(s.boot, ts);
    OthersOnly(s, junks, ts);
  }

  lemma {:induction false} OthersOn(s: Sys, w: Plan, j: nat, ts: seq<AR.Turn>, c: Sys)
    requires PlanOk(w) && On(s, w, j) && AR.Advances(ts) == 0 && c == Turns(s, w.junks, ts)
    ensures On(c, w, j)
    decreases |ts|
  {
    if ts != [] {
      OtherOn(s, w, j, ts[0]);
      OthersOn(Turn(s, w.junks, ts[0]), w, j, ts[1..], c);
    }
  }

  // ----- Another place for the item -----

  /** A path that is not sure of its place can be given another, or none. */
  lemma {:induction false} DisturbSpot(ram: seq<Byte>, t: Vtree, open: set<nat>, segs: seq<Text>,
                                       d: nat) returns (r: seq<Byte>)
    requires VtreeOk(t) && segs != [] && AllGood(segs) && TreeOk(View(ram, t)) && Spot(View(ram, t), segs) == Some(d)
    requires !SurePath(ram, t, open, Reduce(View(ram, t), t.root), segs)
    ensures PT.Outside(ram, r, open) && TreeOk(View(r, t)) && Spot(View(r, t), segs) != Some(d)
  {
    var base, front, last := Reduce(View(ram, t), t.root), segs[..|segs| - 1], segs[|segs| - 1];
    assert AllGood(front) && Good(last);
    SurePathLast(ram, t, open, base, segs, d);
    if SurePath(ram, t, open, base, front) {
      var b := t.nodes[d].table.value;
      ChildrenAgree(ram, ram, t, d, last, b);
      r := PT.Disturb(ram, b, open, last);
      ChildrenAgree(ram, r, t, d, last, b);
    } else {
      r := DisturbPath(ram, t, open, base, front);
    }
    TopSame(ram, r, t);
  }

  // ----- Entries stay -----

  /** A name that is free is entered in a slot of its own. */
  lemma FreeAppends(ram: seq<Byte>, t: Vtree, d: nat, key: PT.Key)
    requires VtreeOk(t) && d < |t.nodes| && t.nodes[d].table.Some? && PT.Spelt(ram, key) != []
    requires Child(View(ram, t), d, PT.Spelt(ram, key)) == None
    ensures |t.nodes[d].table.value| > 0
    ensures var at := SetAt(ram, t.nodes[d].table.value, key); !HasSlot(t, d, at.0, at.1)
  {
    assert VnodeOk(t, d);
    var b, name := t.nodes[d].table.value, PT.Spelt(ram, key);
    ChildIs(ram, t, d, name);
    var i, j := HT.Index(name, |b|), PT.Found(ram, b, name);
    assert PT.ChainOk(b[i]) && PT.Read(ram, b)[i] == PT.ReadChain(ram, b[i]);
    assert forall k: nat :: 0 < k < |b[i]| ==> b[i][0].val != b[i][k].val;
  }

  /** Growing, and entering in a free slot, keep every slot. */
  lemma GrownKeeps(t: Vtree, xs: seq<Vnode>, e: nat, i: nat, j: nat)
    requires HasSlot(t, e, i, j)
    ensures HasSlot(Grown(t, xs), e, i, j) && SlotOf(Grown(t, xs), e, i, j) == SlotOf(t, e, i, j)
  {
  }

  lemma DotsKeep(ram: seq<Byte>, t: Vtree, parent: nat, n: nat, e: nat, i: nat, j: nat)
    requires n < |t.nodes| && t.nodes[n].table.Some? && |t.nodes[n].table.value| > 0 && HasSlot(t, e, i, j) && e != n
    ensures HasSlot(AddDots(ram, t, parent, n), e, i, j)
    ensures SlotOf(AddDots(ram, t, parent, n), e, i, j) == SlotOf(t, e, i, j)
  {
  }

  /** The new node is led to from d, and from nowhere else than before are the others. */
  lemma MadeLeads(ram: seq<Byte>, t: Vtree, d: nat, key: PT.Key, dir: bool) returns (i: nat, j: nat)
    requires VtreeOk(t) && d < |t.nodes| && t.nodes[d].table.Some? && PT.Spelt(ram, key) != [] && key.Mem?
    ensures LeadsTo(Made(ram, t, d, key, dir), d, i, j, |t.nodes|)
    ensures Child(View(ram, t), d, PT.Spelt(ram, key)) == None ==>
              SlotOf(Made(ram, t, d, key, dir), d, i, j).key == key && !HasSlot(t, d, i, j)
  {
    AddVnodeOk(ram, t, d, key, dir);
    var u, n := Grown(t, [Blank(dir)]), |t.nodes|;
    var at := SetAt(ram, u.nodes[d].table.value, key);
    i, j := at.0, at.1;
    if Child(View(ram, t), d, PT.Spelt(ram, key)) == None { FreeAppends(ram, t, d, key); }
    SetSlots(ram, u, d, key, n, d, i, j);
    if dir {
      AddDotsOk(ram, AddVnode(ram, t, d, key, dir), d, n);
      DotsKeep(ram, AddVnode(ram, t, d, key, dir), d, n, d, i, j);
    }
  }

  lemma MadeKeeps(ram: seq<Byte>, t: Vtree, d: nat, key: PT.Key, dir: bool, e: nat, i: nat, j: nat, c: nat)
    requires VtreeOk(t) && d < |t.nodes| && t.nodes[d].table.Some? && PT.Spelt(ram, key) != [] && key.Mem?
    requires Child(View(ram, t), d, PT.Spelt(ram, key)) == None && LeadsTo(t, e, i, j, c)
    ensures LeadsTo(Made(ram, t, d, key, dir), e, i, j, c)
    ensures SlotOf(Made(ram, t, d, key, dir), e, i, j) == SlotOf(t, e, i, j)
  {
    AddVnodeOk(ram, t, d, key, dir);
    FreeAppends(ram, t, d, key);
    var u, n := Grown(t, [Blank(dir)]), |t.nodes|;
    GrownKeeps(t, [Blank(dir)], e, i, j);
    SetSlots(ram, u, d, key, n, e, i, j);
    if dir {
      AddDotsOk(ram, AddVnode(ram, t, d, key, dir), d, n);
      DotsKeep(ram, AddVnode(ram, t, d, key, dir), d, n, e, i, j);
    }
  }

  /** The slot leads to c, or the boot has halted; before the k-th member otherwise. */
  ghost predicate Keeps(x: Sys, w: Plan, k: nat, e: nat, i: nat, j: nat, c: nat)
  {
    x.halted || (k <= |w.sizes| && On(x, w, k) && LeadsTo(x.tree, e, i, j, c))
  }

  lemma {:induction false} AdvanceKeeps(x: Sys, w: Plan, k: nat, e: nat, i: nat, j: nat, c: nat)
    requires PlanOk(w) && On(x, w, k) && k < |w.sizes| && LeadsTo(x.tree, e, i, j, c)
    ensures Keeps(Advanced(x, w.junks), w, k + 1, e, i, j, c)
  {
    assert ProperAt(w, k);
    if !Advanced(x, w.junks).halted {
      TurnOn(x, w, k);
      var it := ItemOf(EntryAt(w, k).image);
      if it.None? { AdvanceSkips(x, w, k); } else { PlacedKeeps(x, w, k, it.value, e, i, j, c); }
    }
  }

  lemma {:induction false} PlacedKeeps(x: Sys, w: Plan, k: nat, it: Item, e: nat, i: nat, j: nat, c: nat)
    requires PlanOk(w) && On(x, w, k) && k < |w.sizes| && ProperAt(w, k) && ItemOf(EntryAt(w, k).image) == Some(it)
    requires !Advanced(x, w.junks).halted && LeadsTo(x.tree, e, i, j, c)
    ensures LeadsTo(Advanced(x, w.junks).tree, e, i, j, c)
  {
    var v := View(x.boot.ram, x.tree);
    var d := PlaceOf(x, w, k, it, v, Segs(it.path));
    ItemStands(x, w, k, it);
    AdvancePlaces(x, w, k, it, v, d);
    MadeKeeps(x.boot.ram, x.tree, d, KeyOf(x.boot.p, it.path), it.dir, e, i, j, c);
  }

  lemma {:induction false} TurnKeeps(x: Sys, w: Plan, k: nat, e: nat, i: nat, j: nat, c: nat, t: AR.Turn)
    requires PlanOk(w) && Keeps(x, w, k, e, i, j, c)
    ensures Keeps(Turner(w.junks)(x, t), w, Onward(w)(k, t), e, i, j, c)
  {
    if !x.halted {
      if !t.Advance? { OtherOn(x, w, k, t); }
      else if k < |w.sizes| { AdvanceKeeps(x, w, k, e, i, j, c); }
      else { AdvanceEnds(x, w, k); }
    }
  }

  ghost function KeepsAll(w: Plan, e: nat, i: nat, j: nat, c: nat): (Sys, nat) -> bool
  {
    (x: Sys, k: nat) => Keeps(x, w, k, e, i, j, c)
  }

  lemma EveryTurnKeeps(w: Plan, e: nat, i: nat, j: nat, c: nat, step: (Sys, AR.Turn) -> Sys, inv: (Sys, nat) -> bool,
                       next: (nat, AR.Turn) -> nat)
    requires PlanOk(w) && step == Turner(w.junks) && inv == KeepsAll(w, e, i, j, c) && next == Onward(w)
    ensures forall x, k, t :: inv(x, k) ==> inv(step(x, t), next(k, t))
  {
    forall x, k, t | inv(x, k) ensures inv(step(x, t), next(k, t)) { TurnKeeps(x, w, k, e, i, j, c, t); }
  }

  lemma KeepsIs(w: Plan, e: nat, i: nat, j: nat, c: nat, inv: (Sys, nat) -> bool, x: Sys, k: nat)
    requires inv == KeepsAll(w, e, i, j, c)
    ensures inv(x, k) <==> Keeps(x, w, k, e, i, j, c)
  {
  }

  /** An entry, once made, is there at the end. */
  lemma {:induction false} EntriesStay(s: Sys, w: Plan, k: nat, e: nat, i: nat, j: nat, c: nat, ts: seq<AR.Turn>,
                                       z: Sys)
    requires PlanOk(w) && Keeps(s, w, k, e, i, j, c) && z == Turns(s, w.junks, ts) && k <= |w.sizes|
    ensures z.halted || LeadsTo(z.tree, e, i, j, c)
  {
    var step, inv, next := Turner(w.junks), KeepsAll(w, e, i, j, c), Onward(w);
    EveryTurnKeeps(w, e, i, j, c, step, inv, next);
    KeepsIs(w, e, i, j, c, inv, s, k);
    PlayKeeps(step, inv, next, s, k, ts);
    KeepsIs(w, e, i, j, c, inv, z, Count(next, k, ts));
  }

  // ----- The quiet run, as a run -----

  function Forward(n: nat): (ts: seq<AR.Turn>)
    ensures |ts| == n && forall i :: 0 <= i < n ==> ts[i] == AR.Advance
  {
    seq(n, _ => AR.Advance)
  }

  lemma {:induction false} ForwardAdvances(n: nat)
    ensures AR.Advances(Forward(n)) == n
    decreases n
  {
    if n > 0 {
      assert Forward(n)[1..] == Forward(n - 1);
      ForwardAdvances(n - 1);
    }
  }

  lemma {:induction false} QuietIs(qs: seq<Sys>, w: Plan, j: nat, k: nat)
    requires QuietRun(qs, w) && j <= k <= |w.sizes|
    ensures Turns(qs[j], w.junks, Forward(k - j)) == qs[k]
    decreases k - j
  {
    if j < k {
      assert QuietTurn(qs, w, j);
      var ts := Forward(k - j);
      assert ts == [AR.Advance] + Forward(k - j - 1);
      TurnsSplit(qs[j], w.junks, [AR.Advance], Forward(k - j - 1));
      PlayOne(Turner(w.junks), qs[j], AR.Advance);
      QuietNext(qs, w, j);
      QuietIs(qs, w, j + 1, k);
    }
  }

  lemma QuietNext(qs: seq<Sys>, w: Plan, j: nat)
    requires QuietTurn(qs, w, j)
    ensures Turner(w.junks)(qs[j], AR.Advance) == qs[j + 1]
  {
  }

  lemma TurnsSplit(s: Sys, junks: seq<seq<Byte>>, a: seq<AR.Turn>, b: seq<AR.Turn>)
    ensures Turns(s, junks, a + b) == Turns(Turns(s, junks, a), junks, b)
  {
    PlaySplit(Turner(junks), s, a, b);
  }

  // ----- A boot that comes to something else -----

  /** In place of the quiet turn: a halt, or an entry in another directory e. */
  lemma {:induction false} OtherPlace(q: Sys, w: Plan, j: nat, it: Item, d: nat) returns (ts: seq<AR.Turn>, s: Sys,
                                      e: nat, i: nat, k: nat)
    requires PlanOk(w) && On(q, w, j) && j < |w.sizes| && ProperAt(w, j) && ItemOf(EntryAt(w, j).image) == Some(it)
    requires TreeOk(View(q.boot.ram, q.tree)) && Segs(it.path) != [] && AllGood(Segs(it.path))
    requires Spot(View(q.boot.ram, q.tree), Segs(it.path)) == Some(d) && !SureNext(q, w, j)
    ensures AR.Advances(ts) == 0 && s == Turns(q, w.junks, ts) && On(s, w, j)
    ensures Keeps(Advanced(s, w.junks), w, j + 1, e, i, k, |q.tree.nodes|) && e != d
  {
    var segs := Segs(it.path);
    var r := DisturbSpot(q.boot.ram, q.tree, AR.Open(q.boot), segs, d);
    var b;
    ts, b := BringAbout(q, w.junks, r);
    s := q.(boot := b);
    OthersOn(q, w, j, ts, s);
    e, i, k := ElsewhereOrNowhere(s, w, j, it, View(r, q.tree), d);
  }

  lemma {:induction false} ElsewhereOrNowhere(s: Sys, w: Plan, j: nat, it: Item, v: Tree, d: nat) returns (e: nat,
                                              i: nat, k: nat)
    requires PlanOk(w) && On(s, w, j) && j < |w.sizes| && ProperAt(w, j) && ItemOf(EntryAt(w, j).image) == Some(it)
    requires v == View(s.boot.ram, s.tree) && TreeOk(v) && Segs(it.path) != [] && Spot(v, Segs(it.path)) != Some(d)
    ensures Keeps(Advanced(s, w.junks), w, j + 1, e, i, k, |s.tree.nodes|) && e != d
  {
    var at := Spot(v, Segs(it.path));
    if at.None? {
      AdvanceHalts(s, w, j, it, v);
      e, i, k := d + 1, 0, 0;
    } else {
      e := at.value;
      i, k := EntersIn(s, w, j, it, v, e);
    }
  }

  /** The item is entered in its place. */
  lemma {:induction false} EntersIn(s: Sys, w: Plan, j: nat, it: Item, v: Tree, d: nat) returns (i: nat, k: nat)
    requires PlanOk(w) && On(s, w, j) && j < |w.sizes| && ProperAt(w, j) && ItemOf(EntryAt(w, j).image) == Some(it)
    requires v == View(s.boot.ram, s.tree) && TreeOk(v) && Segs(it.path) != [] && Spot(v, Segs(it.path)) == Some(d)
    ensures Keeps(Advanced(s, w.junks), w, j + 1, d, i, k, |s.tree.nodes|)
  {
    ItemStands(s, w, j, it);
    AdvancePlaces(s, w, j, it, v, d);
    PlacedOn(s, w, j, it, d);
    i, k := MadeLeads(s.boot.ram, s.tree, d, KeyOf(s.boot.p, it.path), it.dir);
  }

  lemma TwoPlaces(t: Vtree, e: nat, i: nat, k: nat, d: nat, i': nat, k': nat, c: nat)
    requires VtreeOk(t) && LeadsTo(t, e, i, k, c) && LeadsTo(t, d, i', k', c)
    ensures e == d
  {
  }

  /** From an unsure turn on: other tables at the end, or a halt. */
  lemma {:induction false} DivergeFrom(qs: seq<Sys>, w: Plan, j: nat, rest: seq<AR.Turn>) returns (us: seq<AR.Turn>,
                                       s: Sys)
    requires QuietRun(qs, w) && j < |w.sizes| && !SureTurnAt(qs, w, j) && rest == Forward(|w.sizes| - j - 1)
    ensures AR.Advances(us) == 0 && s == Turns(qs[j], w.junks, us) && SysOk(s) && !s.halted
    ensures var z := Turns(Advanced(s, w.junks), w.junks, rest); z.halted || z.tree != qs[|w.sizes|].tree
  {
    assert QuietTurn(qs, w, j);
    var q, n, c := qs[j], |w.sizes|, |qs[j].tree.nodes|;
    var it, v := ItemOf(EntryAt(w, j).image).value, View(q.boot.ram, q.tree);
    var d := PlaceOf(q, w, j, it, v, Segs(it.path));
    var i', k' := EntersIn(q, w, j, it, v, d);
    var e, i, k;
    us, s, e, i, k := OtherPlace(q, w, j, it, d);
    var z := Turns(Advanced(s, w.junks), w.junks, rest);
    EntriesStay(Advanced(s, w.junks), w, j + 1, e, i, k, c, rest, z);
    QuietIs(qs, w, j + 1, n);
    EntriesStay(qs[j + 1], w, j + 1, d, i', k', c, rest, qs[n]);
    if !z.halted && z.tree == qs[n].tree { TwoPlaces(z.tree, e, i, k, d, i', k', c); }
  }

  lemma CountAdvances(j: nat, us: seq<AR.Turn>, n: nat)
    requires AR.Advances(us) == 0
    ensures AR.Advances(Forward(j) + (us + ([AR.Advance] + Forward(n)))) == j + 1 + n
  {
    var rest := Forward(n);
    ForwardAdvances(j);
    ForwardAdvances(n);
    AR.AdvancesAdd(Forward(j), us + ([AR.Advance] + rest));
    AR.AdvancesAdd(us, [AR.Advance] + rest);
    AR.AdvancesAdd([AR.Advance], rest);
    assert [AR.Advance][1..] == [];
  }

  /** A run with an unsure turn in it that ends with other tables, or halts. */
  lemma {:induction false} Diverge(qs: seq<Sys>, w: Plan, j: nat) returns (ts: seq<AR.Turn>)
    requires QuietRun(qs, w) && j < |w.sizes| && !SureTurnAt(qs, w, j)
    ensures AR.Advances(ts) == |w.sizes|
    ensures var z := Turns(qs[0], w.junks, ts); z.halted || z.tree != qs[|w.sizes|].tree
  {
    var rest := Forward(|w.sizes| - j - 1);
    var us, s := DivergeFrom(qs, w, j, rest);
    ts := Forward(j) + (us + ([AR.Advance] + rest));
    RunsTo(qs, w, j, us, s, rest);
    CountAdvances(j, us, |w.sizes| - j - 1);
  }

  lemma {:induction false} RunsTo(qs: seq<Sys>, w: Plan, j: nat, us: seq<AR.Turn>, s: Sys, rest: seq<AR.Turn>)
    requires QuietRun(qs, w) && j <= |w.sizes| && s == Turns(qs[j], w.junks, us) && SysOk(s) && !s.halted
    ensures Turns(qs[0], w.junks, Forward(j) + (us + ([AR.Advance] + rest)))
            == Turns(Advanced(s, w.junks), w.junks, rest)
  {
    QuietIs(qs, w, 0, j);
    TurnsSplit(qs[0], w.junks, Forward(j), us + ([AR.Advance] + rest));
    TurnsSplit(qs[j], w.junks, us, [AR.Advance] + rest);
    TurnsSplit(s, w.junks, [AR.Advance], rest);
    PlayOne(Turner(w.junks), s, AR.Advance);
  }

  // ----- The exact condition -----

  /** The boot comes to what the quiet one q came to: no failed assertion, the same tables and files, and the
      path finds the same node. */
  ghost predicate SameEnd(c: Sys, q: Sys, segs: seq<Text>)
    requires SysOk(q)
  {
    && !c.halted && c.tree == q.tree && c.files == q.files
    && TreeOk(View(q.boot.ram, q.tree))
    && Finds(c.boot.ram, c.tree, TopOf(q), segs, Resolve(View(q.boot.ram, q.tree), TopOf(q), segs))
  }

  ghost predicate SureEnd(q: Sys, segs: seq<Text>)
    requires SysOk(q)
  {
    SurePath(q.boot.ram, q.tree, AR.Open(q.boot), TopOf(q), segs)
  }

  lemma SureSame(c: Sys, q: Sys, segs: seq<Text>)
    requires SysOk(q) && !c.halted && Agree(c, q) && AllGood(segs) && SureEnd(q, segs)
    ensures SameEnd(c, q, segs)
  {
    ViewOk(q.boot.ram, q.tree);
    SurePathStays(q.boot.ram, c.boot.ram, q.tree, AR.Open(q.boot), TopOf(q), segs);
  }

  lemma {:induction false} DivergeAtEnd(qs: seq<Sys>, w: Plan, segs: seq<Text>) returns (ts: seq<AR.Turn>)
    requires QuietRun(qs, w) && AllGood(segs)
    requires
      var q := qs[|w.sizes|];
      && !SureEnd(q, segs) && TreeOk(View(q.boot.ram, q.tree))
      && Resolve(View(q.boot.ram, q.tree), TopOf(q), segs).Some?
    ensures AR.Advances(ts) == |w.sizes| && !SameEnd(Turns(qs[0], w.junks, ts), qs[|w.sizes|], segs)
  {
    var n, q := |w.sizes|, qs[|w.sizes|];
    var r := DisturbPath(q.boot.ram, q.tree, AR.Open(q.boot), TopOf(q), segs);
    var us, b := BringAbout(q, w.junks, r);
    ts := Forward(n) + us;
    QuietIs(qs, w, 0, n);
    TurnsSplit(qs[0], w.junks, Forward(n), us);
    ForwardAdvances(n);
    AR.AdvancesAdd(Forward(n), us);
  }

  /** Every boot, however others take frames and write to them, comes to what the quiet one comes to, and the
      path finds its node, if and only if every search of the quiet boot, and the one for the path at its end,
      is sure of its answer against the frames open at the time. */
  lemma {:induction false} BootExactly(qs: seq<Sys>, w: Plan, segs: seq<Text>)
    requires QuietRun(qs, w) && AllGood(segs)
    requires
      var q := qs[|w.sizes|];
      TreeOk(View(q.boot.ram, q.tree)) && Resolve(View(q.boot.ram, q.tree), TopOf(q), segs).Some?
    ensures (forall ts :: AR.Advances(ts) >= |w.sizes| ==> SameEnd(Turns(qs[0], w.junks, ts), qs[|w.sizes|], segs))
            <==> SureAll(qs, w) && SureEnd(qs[|w.sizes|], segs)
  {
    var n, q := |w.sizes|, qs[|w.sizes|];
    if !SureAll(qs, w) {
      var j: nat :| j < n && !SureTurnAt(qs, w, j);
      var ts := Diverge(qs, w, j);
      assert !SameEnd(Turns(qs[0], w.junks, ts), q, segs);
    } else if !SureEnd(q, segs) {
      var ts := DivergeAtEnd(qs, w, segs);
      assert !SameEnd(Turns(qs[0], w.junks, ts), q, segs);
    } else {
      forall ts | AR.Advances(ts) >= n ensures SameEnd(Turns(qs[0], w.junks, ts), q, segs) {
        SureComes(qs, w, segs, ts, Turns(qs[0], w.junks, ts));
      }
    }
  }

  lemma SureComes(qs: seq<Sys>, w: Plan, segs: seq<Text>, ts: seq<AR.Turn>, c: Sys)
    requires QuietRun(qs, w) && AllGood(segs) && SureAll(qs, w) && SureEnd(qs[|w.sizes|], segs)
    requires AR.Advances(ts) >= |w.sizes| && c == Turns(qs[0], w.junks, ts)
    ensures SameEnd(c, qs[|w.sizes|], segs)
  {
    BesideStart(qs, w);
    SureRun(qs[0], qs, w, ts, c);
    SureSame(c, qs[|w.sizes|], segs);
  }

  lemma BesideStart(qs: seq<Sys>, w: Plan)
    requires QuietRun(qs, w)
    ensures Beside(qs[0], qs, w, 0)
  {
    if |w.sizes| > 0 { assert QuietTurn(qs, w, 0); }
  }
}
