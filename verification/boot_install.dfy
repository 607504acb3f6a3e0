/** The boot from the archive's bytes on, with the node tree as it is first set up: what it comes to when nobody
    disturbs it, and exactly when nobody can. */
module BootInstall {
  import opened Words
  import opened FrameAllocator
  import opened Strings
  import opened FileTree
  import opened FileCreation
  import opened BootArchive
  import opened BootFiles
  import opened BootTree
  import opened KeyedTree
  import opened BootKeys
  import opened BootExact
  import opened BootDisturb
  import AR = ArchiveReclaim
  import HT = HashTable
  import PT = PointerTable
  import TF = TempFiles

  // ----- With memory left alone, keys are as good as values -----

  /** Memory is as it was up to q. */
  predicate AlikeTo(ram: seq<Byte>, r: seq<Byte>,
                    q: nat) { |r| == |ram| && forall a: nat :: a < q && a < |ram| ==> r[a] == ram[a] }

  lemma AlikeSpells(ram: seq<Byte>, r: seq<Byte>, q: nat, k: PT.Key)
    requires AlikeTo(ram, r, q) && KeyBelow(k, q)
    ensures PT.Spelt(r, k) == PT.Spelt(ram, k)
  {
  }

  lemma AlikeView(ram: seq<Byte>, r: seq<Byte>, q: nat, t: Vtree)
    requires AlikeTo(ram, r, q) && Below(t, q)
    ensures View(r, t) == View(ram, t)
  {
    forall d: nat, i: nat, j: nat | HasSlot(t, d, i, j)
      ensures PT.Spelt(r, SlotOf(t, d, i, j).key) == PT.Spelt(ram, SlotOf(t, d, i, j).key)
    {
      assert Before(q)(SlotOf(t, d, i, j).key);
      AlikeSpells(ram, r, q, SlotOf(t, d, i, j).key);
    }
    SameView(ram, r, t);
  }

  lemma TrimAlike(ram: seq<Byte>, p: nat, path: Text)
    requires path != [] && p + |path| <= |ram|
    ensures AlikeTo(ram, Trim(ram, p, path), p + CutEnd(path))
  {
  }

  lemma MadeBelow(ram: seq<Byte>, t: Vtree, d: nat, key: PT.Key, dir: bool, p: nat, q: nat, u: Vtree)
    requires VtreeOk(t) && d < |t.nodes| && t.nodes[d].table.Some? && PT.Spelt(ram, key) != [] && key.Mem?
    requires Below(t, p) && p <= q && KeyBelow(key, q) && u == Made(ram, t, d, key, dir)
    ensures Below(u, q)
  {
    BelowMore(t, p, q);
    MadeKeys(ram, t, d, key, dir, Before(q));
  }

  lemma PlacedView(s: Sys, it: Item, junk: seq<Byte>, d: nat, x: Sys)
    requires SysOk(s) && d < |s.tree.nodes| && s.tree.nodes[d].table.Some? && TF.Room(TF.Created(), |it.data|, 0, junk)
    requires it.path != [] && s.boot.p + |it.path| <= |s.boot.ram|
    requires PT.Spelt(s.boot.ram, KeyOf(s.boot.p, it.path)) != []
    requires Below(s.tree, s.boot.p) && x == Placed(s, it, junk, d)
    ensures View(x.boot.ram, x.tree) == View(s.boot.ram, x.tree)
  {
    var key, q := KeyOf(s.boot.p, it.path), s.boot.p + CutEnd(it.path);
    MadeBelow(s.boot.ram, s.tree, d, key, it.dir, s.boot.p, q, x.tree);
    TrimAlike(s.boot.ram, s.boot.p, it.path);
    AlikeView(s.boot.ram, x.boot.ram, q, x.tree);
  }

  /** A turn that nobody disturbs is the installation with keys as values. */
  lemma {:induction false} QuietInstalls(q: Sys, w: Plan, j: nat, x: Entry)
    requires PlanOk(w) && On(q, w, j) && j < |w.sizes| && ProperAt(w, j) && x == EntryAt(w, j) && TreeOk(FsOf(q).tree)
    ensures EntryOk(x) && (Advanced(q, w.junks).halted <==> Step(FsOf(q), x).None?)
    ensures !Advanced(q, w.junks).halted ==> Step(FsOf(q), x) == Some(FsOf(Advanced(q, w.junks)))
  {
    var it := ItemOf(x.image);
    if it.None? { AdvanceSkips(q, w, j); } else { QuietItem(q, w, j, it.value, View(q.boot.ram, q.tree)); }
  }

  lemma {:induction false} QuietItem(q: Sys, w: Plan, j: nat, it: Item, v: Tree)
    requires PlanOk(w) && On(q, w, j) && j < |w.sizes| && ProperAt(w, j) && ItemOf(EntryAt(w, j).image) == Some(it)
    requires v == View(q.boot.ram, q.tree) && TreeOk(v) && TF.Room(TF.Created(), |it.data|, 0, w.junks[j])
    ensures Advanced(q, w.junks).halted <==> Install(FsOf(q), it, w.junks[j]).None?
    ensures !Advanced(q, w.junks).halted ==> Install(FsOf(q), it, w.junks[j]) == Some(FsOf(Advanced(q, w.junks)))
  {
    NameOf(it.path);
    SpotIsParent(v, it);
    var at := Spot(v, Segs(it.path));
    if at.None? { AdvanceHalts(q, w, j, it, v); }
    else {
      ItemStands(q, w, j, it);
      AdvancePlaces(q, w, j, it, v, at.value);
      PlacedView(q, it, w.junks[j], at.value, Advanced(q, w.junks));
      MadeOk(q.boot.ram, q.tree, at.value, KeyOf(q.boot.p, it.path), it.dir);
    }
  }

  // ----- The whole archive, left alone -----

  ghost function QuietStates(s: Sys, w: Plan, n: nat): (qs: seq<Sys>)
    requires SysOk(s)
    ensures |qs| == n + 1 && SysOk(qs[n])
    decreases n
  {
    if n == 0 then [s]
    else
      var front := QuietStates(s, w, n - 1);
      AdvancedOk(front[n - 1], w.junks);
      front + [Advanced(front[n - 1], w.junks)]
  }

  function EntriesOf(w: Plan, n: nat): (xs: seq<Entry>)
    requires forall i: nat :: i < n ==> ProperAt(w, i)
    ensures |xs| == n && forall i: nat :: i < n ==> ProperAt(w, i) && xs[i] == EntryAt(w, i)
    decreases n
  {
    if n == 0 then []
    else
      assert ProperAt(w, n - 1);
      EntriesOf(w, n - 1) + [EntryAt(w, n - 1)]
  }

  lemma {:induction false} InstallAppend(fs: Fs, xs: seq<Entry>, x: Entry)
    requires FsOk(fs) && EntryOk(x) && forall i :: 0 <= i < |xs| ==> EntryOk(xs[i])
    ensures forall i :: 0 <= i < |xs + [x]| ==> EntryOk((xs + [x])[i])
    ensures InstallAll(fs, xs).Some? ==> FsOk(InstallAll(fs, xs).value)
    ensures InstallAll(fs, xs + [x]) == if InstallAll(fs, xs).None? then None else Step(InstallAll(fs, xs).value, x)
    decreases |xs|
  {
    var ys := xs + [x];
    assert forall i :: 0 <= i < |ys| ==> EntryOk(ys[i]);
    if xs == [] {
      assert ys[1..] == [];
      if Step(fs, x).Some? { StepOk(fs, x, Step(fs, x).value); }
    } else {
      assert ys[0] == xs[0] && ys[1..] == xs[1..] + [x];
      if Step(fs, xs[0]).Some? {
        StepOk(fs, xs[0], Step(fs, xs[0]).value);
        InstallAppend(Step(fs, xs[0]).value, xs[1..], x);
      }
    }
  }

  ghost predicate AllOk(xs: seq<Entry>) { forall i :: 0 <= i < |xs| ==> EntryOk(xs[i]) }

  lemma EntriesOk(w: Plan, n: nat)
    requires forall i: nat :: i < n ==> ProperAt(w, i)
    ensures AllOk(EntriesOf(w, n)) && AllProper(EntriesOf(w, n))
  {
    var xs := EntriesOf(w, n);
    forall i | 0 <= i < |xs| ensures Proper(xs[i]) { assert ProperAt(w, i); }
  }

  /** The quiet boot after n members: halted exactly if the installation has failed, and otherwise its tree and
      files. */
  ghost predicate QuietTo(s: Sys, w: Plan, n: nat, r: Option<Fs>)
    requires SysOk(s)
  {
    var qs := QuietStates(s, w, n);
    && (r.None? ==> qs[n].halted)
    && (r.Some? ==> On(qs[n], w, n) && r.value == FsOf(qs[n]) && forall j: nat :: j < n ==> QuietTurn(qs, w, j))
  }

  lemma {:induction false} QuietAll(s: Sys, w: Plan, n: nat)
    requires PlanOk(w) && On(s, w, 0) && n <= |w.sizes| && FsOk(FsOf(s)) && AllOk(EntriesOf(w, n))
    ensures QuietTo(s, w, n, InstallAll(FsOf(s), EntriesOf(w, n)))
    decreases n
  {
    if n > 0 {
      var m, xs := n - 1, EntriesOf(w, n - 1);
      assert ProperAt(w, m);
      EntriesOk(w, m);
      QuietAll(s, w, m);
      InstallAppend(FsOf(s), xs, EntryAt(w, m));
      QuietMore(s, w, m, InstallAll(FsOf(s), xs), InstallAll(FsOf(s), EntriesOf(w, n)));
    }
  }

  lemma {:induction false} QuietMore(s: Sys, w: Plan, m: nat, r: Option<Fs>, r': Option<Fs>)
    requires PlanOk(w) && On(s, w, 0) && m < |w.sizes| && ProperAt(w, m) && EntryOk(EntryAt(w, m))
    requires QuietTo(s, w, m, r)
    requires (r.Some? ==> FsOk(r.value)) && r' == if r.None? then None else Step(r.value, EntryAt(w, m))
    ensures QuietTo(s, w, m + 1, r')
  {
    var qs, ps := QuietStates(s, w, m), QuietStates(s, w, m + 1);
    assert ps[..m + 1] == qs && ps[m] == qs[m] && ps[m + 1] == Advanced(qs[m], w.junks);
    if r.Some? {
      QuietInstalls(qs[m], w, m, EntryAt(w, m));
      if r'.Some? {
        TurnOn(qs[m], w, m);
        forall j: nat | j < m + 1 ensures QuietTurn(ps, w, j) {
          if j < m { assert QuietTurn(qs, w, j) && ps[j] == qs[j] && ps[j + 1] == qs[j + 1]; }
        }
      }
    }
  }

  // ----- From the first set-up on -----

  /** The node tree that vfs_init leaves; its names are constants. */
  ghost function FirstTree(ram: seq<Byte>): Vtree
  {
    var t := Vtree([Vnode(Some(PT.Blank(TABLE_SIZE)), Some(1), None), Blank(true)], 0);
    AddDots(ram, SetIn(ram, t, 0, PT.Lit([SLASH]), 1), 0, 1)
  }

  lemma TwoNodes(t: Vtree)
    requires t == Vtree([Vnode(Some(PT.Blank(TABLE_SIZE)), Some(1), None), Blank(true)], 0)
    ensures VtreeOk(t) && Unreached(t, 1)
  {
    BlankSeen([], true);
    forall i: nat | i < |t.nodes| ensures VnodeOk(t, i) { }
    forall d: nat, i: nat, j: nat ensures SlotOk(t, d, i, j) { }
  }

  lemma FirstTreeOk(ram: seq<Byte>)
    ensures VtreeOk(FirstTree(ram)) && View(ram, FirstTree(ram)) == Mounted()
  {
    var t := Vtree([Vnode(Some(PT.Blank(TABLE_SIZE)), Some(1), None), Blank(true)], 0);
    TwoNodes(t);
    BlankSeen(ram, true);
    assert SLASH in [SLASH];
    SetInOk(ram, t, 0, PT.Lit([SLASH]), 1);
    SetInView(ram, t, 0, PT.Lit([SLASH]), 1);
    var u := SetIn(ram, t, 0, PT.Lit([SLASH]), 1);
    AddDotsOk(ram, u, 0, 1);
    AddDotsView(ram, u, 0, 1, FirstTree(ram));
    RootDotted(View(ram, u));
  }

  lemma RootDotted(v: Tree)
    requires v == Tree([Node(Some(map[[SLASH] := 1]), Some(1), None), Node(Some(map[]), None, None)], 0)
    ensures Dotted(v, 0, 1) == Mounted()
  {
    assert Dotted(v, 0, 1).nodes == Mounted().nodes;
  }

  lemma FirstTreeKeys(ram: seq<Byte>, ok: PT.Key -> bool)
    requires Constants(ok)
    ensures AllKeys(FirstTree(ram), ok)
  {
    var t := Vtree([Vnode(Some(PT.Blank(TABLE_SIZE)), Some(1), None), Blank(true)], 0);
    forall d: nat, i: nat, j: nat | HasSlot(t, d, i, j) ensures ok(SlotOf(t, d, i, j).key) {
      assert SlotOf(t, d, i, j) == PT.Slot(PT.Lit([]), 0);
    }
    SetInKeys(ram, t, 0, PT.Lit([SLASH]), 1, ok);
    DotsKeys(ram, SetIn(ram, t, 0, PT.Lit([SLASH]), 1), 0, 1, ok);
  }

  /** The system as the walk begins. */
  ghost function AtStart(b: AR.Boot): (s: Sys)
    ensures SysOk(s)
  {
    FirstTreeOk(b.ram);
    Sys(b, FirstTree(b.ram), map[], false)
  }

  function PlanOf(b: AR.Boot, ms: seq<Member>, tail: seq<Byte>, junks: seq<seq<Byte>>): Plan
  {
    Plan(b.ram, Headers(b.p, ms), Sizes(ms), junks, b.p + |Archive(ms, tail)|)
  }

  /** An archive of ordinary paths, about to be walked. */
  ghost predicate Ready(b: AR.Boot, ms: seq<Member>, tail: seq<Byte>, junks: seq<seq<Byte>>)
  {
    AR.Begins(b, ms, tail) && |junks| == |ms| && forall k :: 0 <= k < |ms| ==> Proper(Entry(ms[k].image, junks[k]))
  }

  lemma {:induction false} PlanRoute(b: AR.Boot, ms: seq<Member>, tail: seq<Byte>, junks: seq<seq<Byte>>, w: Plan)
    requires Ready(b, ms, tail, junks) && w == PlanOf(b, ms, tail, junks)
    ensures Route(w.ram, w.ps, w.sizes) && AR.Ends(w.ps, w.end) && w.end <= |w.ram| && |w.sizes| == |ms|
  {
    WalkVisitsMembers(b.ram, b.p, ms, tail, w.ps, w.sizes);
    forall i: nat | i < |w.ps| ensures w.ps[i] + BLOCK <= w.end { AR.HeaderInside(b.p, ms, tail, i); }
  }

  lemma {:induction false} PlanEntry(b: AR.Boot, ms: seq<Member>, tail: seq<Byte>, junks: seq<seq<Byte>>, w: Plan,
                                     i: nat)
    requires Ready(b, ms, tail, junks) && w == PlanOf(b, ms, tail, junks) && i < |ms|
    ensures ProperAt(w, i) && EntryAt(w, i) == Entry(ms[i].image, junks[i])
  {
    PlanRoute(b, ms, tail, junks, w);
    MemberContents(b.ram, b.p, ms, tail, i);
    assert w.ps[i + 1] + BLOCK <= w.end;
    EntryIs(w, i, ms[i].image);
  }

  lemma EntryIs(w: Plan, i: nat, image: seq<Byte>)
    requires Between(w, i) && w.ram[w.ps[i]..w.ps[i + 1]] == image && Proper(Entry(image, w.junks[i]))
    ensures ProperAt(w, i) && EntryAt(w, i) == Entry(image, w.junks[i])
  {
  }

  lemma {:induction false} PlanIsOk(b: AR.Boot, ms: seq<Member>, tail: seq<Byte>, junks: seq<seq<Byte>>, w: Plan)
    requires Ready(b, ms, tail, junks) && w == PlanOf(b, ms, tail, junks)
    ensures PlanOk(w) && forall i: nat :: i < |ms| ==> ProperAt(w, i) && EntryAt(w, i) == Entry(ms[i].image, junks[i])
  {
    PlanRoute(b, ms, tail, junks, w);
    forall i: nat | i < |ms| ensures ProperAt(w, i) && EntryAt(w, i) == Entry(ms[i].image, junks[i]) {
      PlanEntry(b, ms, tail, junks, w, i);
    }
  }

  lemma StartOn(b: AR.Boot, ms: seq<Member>, tail: seq<Byte>, junks: seq<seq<Byte>>, w: Plan)
    requires Ready(b, ms, tail, junks) && w == PlanOf(b, ms, tail, junks)
    ensures PlanOk(w) && On(AtStart(b), w, 0) && FsOf(AtStart(b)) == Fs(Mounted(), map[]) && FsOk(FsOf(AtStart(b)))
  {
    PlanIsOk(b, ms, tail, junks, w);
    FirstTreeOk(b.ram);
    FirstTreeKeys(b.ram, Before(b.p));
    MountedMirrors();
  }

  // ----- What everybody else can do -----

  /** A boot that came to what the quiet one came to has installed what that one has. */
  lemma SameInstalled(c: Sys, q: Sys, it: Item)
    requires SysOk(q) && Ordinary(it.path) && SameEnd(c, q, Segs(it.path)) && InstalledIn(FsOf(q), it)
    ensures InstalledIn(FsOf(c), it)
  {
    TopSame(q.boot.ram, c.boot.ram, q.tree);
  }

  lemma {:induction false} QuietFirst(s: Sys, w: Plan, n: nat)
    requires SysOk(s)
    ensures QuietStates(s, w, n)[0] == s
    decreases n
  {
    if n > 0 { QuietFirst(s, w, n - 1); }
  }

  lemma FirstInstalls(fs: Fs, xs: seq<Entry>)
    requires fs == Fs(Mounted(), map[]) && AllProper(xs)
    ensures FsOk(fs) && (InstallAll(fs, xs).Some? <==> Ordered([], xs))
    ensures InstallAll(fs, xs).Some? ==> Mirrors(InstallAll(fs, xs).value, xs)
  {
    MountedMirrors();
    InstallsExactly(fs, [], xs);
    assert [] + xs == xs;
  }

  /** Left alone, the boot meets no failed assertion exactly when the archive is in order, and then its tree has
      the archive's paths and no others. */
  lemma {:induction false} QuietEnds(s: Sys, w: Plan, xs: seq<Entry>, qs: seq<Sys>, fs: Fs)
    requires PlanOk(w) && On(s, w, 0) && fs == FsOf(s) == Fs(Mounted(), map[])
    requires xs == EntriesOf(w, |w.sizes|) && qs == QuietStates(s, w, |w.sizes|)
    ensures FsOk(fs) && AllProper(xs) && (qs[|w.sizes|].halted <==> !Ordered([], xs))
    ensures Ordered([], xs) ==> QuietRun(qs, w) && qs[0] == s && Mirrors(FsOf(qs[|w.sizes|]), xs)
    ensures Ordered([], xs) ==> InstallAll(fs, xs) == Some(FsOf(qs[|w.sizes|]))
  {
    EntriesOk(w, |w.sizes|);
    FirstInstalls(fs, xs);
    QuietAll(s, w, |w.sizes|);
    QuietFirst(s, w, |w.sizes|);
  }

  /** The archive, and what is found in memory beyond the files written from it. */
  function Listed(ms: seq<Member>, junks: seq<seq<Byte>>): (xs: seq<Entry>)
    requires |junks| == |ms|
    ensures |xs| == |ms|
  {
    seq(|ms|, i requires 0 <= i < |ms| => Entry(ms[i].image, junks[i]))
  }

  lemma EntriesListed(b: AR.Boot, ms: seq<Member>, tail: seq<Byte>, junks: seq<seq<Byte>>, w: Plan)
    requires Ready(b, ms, tail, junks) && w == PlanOf(b, ms, tail, junks)
    ensures PlanOk(w) && |w.sizes| == |ms| && EntriesOf(w, |ms|) == Listed(ms, junks)
  {
    PlanIsOk(b, ms, tail, junks, w);
    assert forall i: nat :: i < |ms| ==> ProperAt(w, i) && EntriesOf(w, |ms|)[i] == Listed(ms, junks)[i];
  }

  /** The boot that nobody disturbs, before each member and at the end. */
  ghost function QuietBoot(b: AR.Boot, ms: seq<Member>, tail: seq<Byte>, junks: seq<seq<Byte>>): (qs: seq<Sys>)
    ensures |qs| == |ms| + 1 && SysOk(qs[|ms|])
  {
    QuietStates(AtStart(b), PlanOf(b, ms, tail, junks), |ms|)
  }

  /** Whatever others do, the boot comes to what it comes to left alone, and the path leads where it led. */
  ghost predicate Undisturbed(b: AR.Boot, n: nat, junks: seq<seq<Byte>>, q: Sys, path: Text)
    requires SysOk(q) && Ordinary(path)
  {
    forall ts :: AR.Advances(ts) >= n ==> SameEnd(Turns(AtStart(b), junks, ts), q, Segs(path))
  }

  /** On every run the boot ends with the member in its place. */
  ghost predicate Installed(b: AR.Boot, n: nat, junks: seq<seq<Byte>>, it: Item)
  {
    forall ts :: AR.Advances(ts) >= n ==>
      !Turns(AtStart(b), junks, ts).halted && InstalledIn(FsOf(Turns(AtStart(b), junks, ts)), it)
  }

  lemma AlwaysInstalled(b: AR.Boot, n: nat, junks: seq<seq<Byte>>, q: Sys, it: Item)
    requires SysOk(q) && Ordinary(it.path) && Undisturbed(b, n, junks, q, it.path) && InstalledIn(FsOf(q), it)
    ensures Installed(b, n, junks, it)
  {
    forall ts | AR.Advances(ts) >= n
      ensures !Turns(AtStart(b), junks, ts).halted && InstalledIn(FsOf(Turns(AtStart(b), junks, ts)), it)
    {
      SameInstalled(Turns(AtStart(b), junks, ts), q, it);
    }
  }

  /** Booting, from the archive's bytes to the finished tree. Left alone, it meets no failed assertion exactly
      when the archive names no path twice and every directory before what is in it, and then installs every
      member as what it was archived from. And however others take frames that it has handed back and write to
      them, it comes to the same and the member's path leads to it, exactly when its searches are sure; then
      the member is in its place, with its contents, on every run. */
  lemma {:induction false} BootInstalls(b: AR.Boot, ms: seq<Member>, tail: seq<Byte>, junks: seq<seq<Byte>>,
                                        w: Plan, xs: seq<Entry>, qs: seq<Sys>, i: nat, it: Item)
    requires Ready(b, ms, tail, junks) && i < |ms| && ArchivedFrom(ms[i], it)
    requires w == PlanOf(b, ms, tail, junks) && xs == Listed(ms, junks) && qs == QuietBoot(b, ms, tail, junks)
    ensures AllProper(xs) && Ordinary(it.path) && (qs[|ms|].halted <==> !Ordered([], xs))
    ensures Ordered([], xs) ==> Mirrors(FsOf(qs[|ms|]), xs) && InstalledIn(FsOf(qs[|ms|]), it)
    ensures Ordered([], xs) ==>
      (Undisturbed(b, |ms|, junks, qs[|ms|], it.path) <==> SureAll(qs, w) && SureEnd(qs[|ms|], Segs(it.path)))
    ensures Ordered([], xs) && SureAll(qs, w) && SureEnd(qs[|ms|], Segs(it.path)) ==> Installed(b, |ms|, junks, it)
  {
    EntriesListed(b, ms, tail, junks, w);
    StartOn(b, ms, tail, junks, w);
    QuietEnds(AtStart(b), w, xs, qs, Fs(Mounted(), map[]));
    ItemRoundTrip(ms[i], it);
    assert Proper(xs[i]);
    NameOf(it.path);
    if Ordered([], xs) {
      AllInstalled(Fs(Mounted(), map[]), xs, i);
      BootExactly(qs, w, Segs(it.path));
      if SureAll(qs, w) && SureEnd(qs[|ms|], Segs(it.path)) { AlwaysInstalled(b, |ms|, junks, qs[|ms|], it); }
    }
  }
}
