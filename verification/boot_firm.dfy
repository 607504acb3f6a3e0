/** When nobody can disturb any path of the archive: exactly when no frame that holds the last component of a
    member's path is among those that the walk frees and the allocator hands out. */
module BootFirm {
  import opened Words
  import opened FrameAllocator
  import opened Strings
  import opened FileTree
  import opened FileCreation
  import opened BootArchive
  import opened BootFiles
  import opened BootTree
  import opened KeyedTree
  import opened BootKeys
  import opened BootExact
  import opened BootDisturb
  import opened BootInstall
  import AR = ArchiveReclaim
  import HT = HashTable
  import PT = PointerTable
  import TF = TempFiles

  // ----- Keys out of reach -----

  ghost function Firmly(open: set<nat>): PT.Key -> bool { k => PT.Firm(k, open) }

  ghost predicate AllFirm(t: Vtree, open: set<nat>) { AllKeys(t, Firmly(open)) }

  /** A key out of reach can be made to spell only what it spells. */
  lemma FirmSpells(ram: seq<Byte>, k: PT.Key, open: set<nat>, text: Text)
    requires PT.Firm(k, open) && PT.Pliable(ram, k, open, text)
    ensures PT.Spelt(ram, k) == text
  {
    if k.Mem? {
      assert forall b: nat :: b < k.len ==> k.at <= k.at + b < k.at + k.len && ram[k.at..k.at + k.len][b] == text[b];
      assert ram[k.at..k.at + k.len] == text;
    }
  }

  lemma {:induction false} SeekFirst(c: seq<HT.Entry>, key: Text, i: nat)
    requires i < HT.Seek(c, key) && i < |c|
    ensures c[i].key != key
  {
  }

  lemma FirmSure(ram: seq<Byte>, b: PT.Table, open: set<nat>, key: Text)
    requires |b| > 0 && forall i: nat, j: nat :: i < |b| && j < |b[i]| ==> PT.Firm(b[i][j].key, open)
    ensures PT.Sure(ram, b, open, key)
  {
    var h, n := HT.Index(key, |b|), PT.Found(ram, b, key);
    forall i: nat | i < n && i < |b[h]| ensures !PT.Pliable(ram, b[h][i].key, open, key) {
      SeekFirst(PT.ReadChain(ram, b[h]), key, i);
      if PT.Pliable(ram, b[h][i].key, open, key) { FirmSpells(ram, b[h][i].key, open, key); }
    }
  }

  /** Where all keys are out of reach, every search is sure. */
  lemma {:induction false} FirmPath(ram: seq<Byte>, t: Vtree, open: set<nat>, cur: nat, segs: seq<Text>)
    requires VtreeOk(t) && cur < |t.nodes| && AllFirm(t, open)
    ensures SurePath(ram, t, open, cur, segs)
    decreases |segs|
  {
    if segs != [] && t.nodes[cur].table.Some? {
      assert VnodeOk(t, cur);
      var b: PT.Table := t.nodes[cur].table.value;
      forall i: nat, j: nat | i < |b| && j < |b[i]| ensures PT.Firm(b[i][j].key, open) {
        assert HasSlot(t, cur, i, j) && Firmly(open)(SlotOf(t, cur, i, j).key);
      }
      FirmSure(ram, b, open, segs[0]);
      var c := Child(View(ram, t), cur, segs[0]);
      if c.Some? {
        var i, j := ChildSlot(ram, t, cur, segs[0], c.value);
        FirmPath(ram, t, open, c.value, segs[1..]);
      }
    }
  }

  lemma FirmFewer(t: Vtree, open: set<nat>, open': set<nat>)
    requires AllFirm(t, open) && open' <= open
    ensures AllFirm(t, open')
  {
    forall d: nat, i: nat, j: nat | HasSlot(t, d, i, j) ensures Firmly(open')(SlotOf(t, d, i, j).key) {
      assert Firmly(open)(SlotOf(t, d, i, j).key);
    }
  }

  // ----- Along the quiet boot -----

  /** The last component of the i-th member's path stands out of reach. */
  ghost predicate FirmAt(w: Plan, i: nat, open: set<nat>)
  {
    && ProperAt(w, i)
    && var it := ItemOf(EntryAt(w, i).image);
       it.Some? ==> it.value.path != [] && PT.Firm(KeyOf(w.ps[i], it.value.path), open)
  }

  ghost predicate FirmKeys(w: Plan, open: set<nat>) { forall i: nat :: i < |w.sizes| ==> FirmAt(w, i, open) }

  /** The frames that the walk frees and the allocator hands out. */
  function Reused(w: Plan, limit: nat, n: nat): set<nat>
    requires n <= |w.sizes| && n <= |w.ps|
  {
    set f | f in FreedBy(w.ps, w.sizes, n) && 1 <= f < limit
  }

  /** The turn for an item, in terms of the place found for it. */
  lemma {:induction false} PlacedBy(q: Sys, w: Plan, j: nat, it: Item) returns (d: nat)
    requires PlanOk(w) && On(q, w, j) && j < |w.sizes| && ProperAt(w, j) && ItemOf(EntryAt(w, j).image) == Some(it)
    requires !Advanced(q, w.junks).halted
    ensures d < |q.tree.nodes| && q.tree.nodes[d].table.Some? && TF.Room(TF.Created(), |it.data|, 0, w.junks[j])
    ensures it.path != [] && q.boot.p + |it.path| <= |q.boot.ram| && q.boot.p == w.ps[j]
    ensures PT.Spelt(q.boot.ram, KeyOf(q.boot.p, it.path)) != []
    ensures Child(View(q.boot.ram, q.tree), d, PT.Spelt(q.boot.ram, KeyOf(q.boot.p, it.path))) == None
    ensures Advanced(q, w.junks) == Placed(q, it, w.junks[j], d)
  {
    var v, segs := View(q.boot.ram, q.tree), Segs(it.path);
    d := PlaceOf(q, w, j, it, v, segs);
    ItemStands(q, w, j, it);
    AdvancePlaces(q, w, j, it, v, d);
    SpotFree(v, segs, d);
  }

  lemma SpotFree(v: Tree, segs: seq<Text>, d: nat)
    requires TreeOk(v) && segs != [] && AllGood(segs) && Spot(v, segs) == Some(d)
    ensures Child(v, d, segs[|segs| - 1]) == None
  {
    ResolveLast(v, Reduce(v, v.root), segs);
  }

  lemma TurnOpens(q: Sys, w: Plan, j: nat)
    requires PlanOk(w) && On(q, w, j) && j < |w.sizes| && !Advanced(q, w.junks).halted
    ensures AR.Open(Advanced(q, w.junks).boot) ==
            AR.Open(q.boot) + set f | f in Freed(w.ps[j], w.sizes[j]) && 1 <= f < q.boot.limit
    ensures Advanced(q, w.junks).boot.limit == q.boot.limit
  {
    CurrentIs(q, w, j);
    AdvanceOpens(q.boot);
    var x := ItemOf(EntryAt(w, j).image);
    if x.None? { AdvanceSkips(q, w, j); }
    else { var d := PlacedBy(q, w, j, x.value); }
  }

  /** What is open is what was, and the frames freed and handed out since. */
  lemma {:induction false} OpensExactly(qs: seq<Sys>, w: Plan, j: nat)
    requires QuietRun(qs, w) && j <= |w.sizes| && j <= |w.ps|
    ensures AR.Open(qs[j].boot) == AR.Open(qs[0].boot) + Reused(w, qs[0].boot.limit, j)
    ensures qs[j].boot.limit == qs[0].boot.limit
    decreases j
  {
    if j == 0 { ReusedFirst(w, qs[0].boot.limit); }
    else {
      var i := j - 1;
      OpensExactly(qs, w, i);
      OpensNext(qs, w, i);
      ReusedNext(w, qs[0].boot.limit, i, AR.Open(qs[0].boot), AR.Open(qs[i].boot), AR.Open(qs[j].boot));
    }
  }

  lemma OpensNext(qs: seq<Sys>, w: Plan, i: nat)
    requires QuietRun(qs, w) && i < |w.sizes| && i < |w.ps|
    ensures AR.Open(qs[i + 1].boot) ==
            AR.Open(qs[i].boot) + set f | f in Freed(w.ps[i], w.sizes[i]) && 1 <= f < qs[i].boot.limit
    ensures qs[i + 1].boot.limit == qs[i].boot.limit
  {
    assert QuietTurn(qs, w, i);
    TurnOpens(qs[i], w, i);
  }

  lemma ReusedFirst(w: Plan, limit: nat)
    ensures Reused(w, limit, 0) == {}
  {
  }

  lemma ReusedNext(w: Plan, limit: nat, j: nat, first: set<nat>, before: set<nat>, after: set<nat>)
    requires j < |w.sizes| && j < |w.ps| && before == first + Reused(w, limit, j)
    requires after == before + set f | f in Freed(w.ps[j], w.sizes[j]) && 1 <= f < limit
    ensures after == first + Reused(w, limit, j + 1)
  {
    FreedOneMore(w, limit, j, FreedBy(w.ps, w.sizes, j), Freed(w.ps[j], w.sizes[j]));
  }

  lemma FreedOneMore(w: Plan, limit: nat, j: nat, a: set<nat>, b: set<nat>)
    requires j < |w.sizes| && j < |w.ps| && a == FreedBy(w.ps, w.sizes, j) && b == Freed(w.ps[j], w.sizes[j])
    ensures Reused(w, limit, j + 1) == Reused(w, limit, j) + set f | f in b && 1 <= f < limit
  {
    assert FreedBy(w.ps, w.sizes, j + 1) == a + b;
  }

  lemma {:induction false} OpenGrows(qs: seq<Sys>, w: Plan, j: nat, n: nat)
    requires QuietRun(qs, w) && j <= n <= |w.sizes|
    ensures AR.Open(qs[j].boot) <= AR.Open(qs[n].boot)
    decreases n
  {
    if j < n {
      OpenGrows(qs, w, j, n - 1);
      OpensNext(qs, w, n - 1);
    }
  }

  lemma {:induction false} QuietFirm(qs: seq<Sys>, w: Plan, j: nat, open: set<nat>)
    requires QuietRun(qs, w) && j <= |w.sizes| && FirmKeys(w, open) && AllFirm(qs[0].tree, open)
    ensures AllFirm(qs[j].tree, open)
    decreases j
  {
    if j > 0 {
      QuietFirm(qs, w, j - 1, open);
      assert QuietTurn(qs, w, j - 1) && FirmAt(w, j - 1, open);
      TurnFirm(qs[j - 1], w, j - 1, open);
    }
  }

  lemma {:induction false} TurnFirm(q: Sys, w: Plan, j: nat, open: set<nat>)
    requires PlanOk(w) && On(q, w, j) && j < |w.sizes| && !Advanced(q, w.junks).halted
    requires FirmAt(w, j, open) && AllFirm(q.tree, open)
    ensures AllFirm(Advanced(q, w.junks).tree, open)
  {
    var x := ItemOf(EntryAt(w, j).image);
    if x.None? { AdvanceSkips(q, w, j); }
    else {
      var d := PlacedBy(q, w, j, x.value);
      MadeKeys(q.boot.ram, q.tree, d, KeyOf(q.boot.p, x.value.path), x.value.dir, Firmly(open));
    }
  }

  lemma {:induction false} FirmBoot(qs: seq<Sys>, w: Plan, segs: seq<Text>)
    requires QuietRun(qs, w) && FirmKeys(w, AR.Open(qs[|w.sizes|].boot))
    requires AllFirm(qs[0].tree, AR.Open(qs[|w.sizes|].boot))
    ensures SureAll(qs, w) && SureEnd(qs[|w.sizes|], segs)
  {
    var n, open := |w.sizes|, AR.Open(qs[|w.sizes|].boot);
    forall j: nat | j < n ensures SureTurnAt(qs, w, j) { FirmTurn(qs, w, j, open); }
    QuietFirm(qs, w, n, open);
    FirmPath(qs[n].boot.ram, qs[n].tree, open, TopOf(qs[n]), segs);
  }

  lemma {:induction false} FirmTurn(qs: seq<Sys>, w: Plan, j: nat, open: set<nat>)
    requires QuietRun(qs, w) && j < |w.sizes| && open == AR.Open(qs[|w.sizes|].boot)
    requires FirmKeys(w, open) && AllFirm(qs[0].tree, open)
    ensures SureTurnAt(qs, w, j)
  {
    assert QuietTurn(qs, w, j);
    QuietFirm(qs, w, j, open);
    OpenGrows(qs, w, j, |w.sizes|);
    FirmFewer(qs[j].tree, open, AR.Open(qs[j].boot));
    var x := ItemOf(EntryAt(w, j).image);
    if x.Some? { FirmPath(qs[j].boot.ram, qs[j].tree, AR.Open(qs[j].boot), TopOf(qs[j]), Segs(x.value.path)); }
  }

  // ----- Keys within reach -----

  /** The slot has this key and leads to n, and so does the path. */
  ghost predicate Stands(q: Sys, d: nat, i: nat, k: nat, key: PT.Key, n: nat, segs: seq<Text>)
  {
    && SysOk(q) && LeadsTo(q.tree, d, i, k, n) && SlotOf(q.tree, d, i, k).key == key
    && TreeOk(View(q.boot.ram, q.tree)) && Resolve(View(q.boot.ram, q.tree), TopOf(q), segs) == Some(n)
  }

  lemma InstallFindsNew(fs: Fs, it: Item, junk: seq<Byte>, gs: Fs)
    requires TreeOk(fs.tree) && Ordinary(it.path) && TF.Room(TF.Created(), |it.data|, 0, junk)
    requires Install(fs, it, junk) == Some(gs)
    ensures TreeOk(gs.tree) && Resolve(gs.tree, Top(gs), Segs(it.path)) == Some(|fs.tree.nodes|)
  {
    var (w, n) := Create(fs.tree, Some(fs.tree.root), it.path, BaseName(it.path), it.dir).value;
    NameOf(it.path);
    InstallTree(fs.tree, it, w, n, Segs(it.path));
  }

  lemma InstallFindsOld(fs: Fs, it: Item, junk: seq<Byte>, gs: Fs, s: seq<Text>)
    requires TreeOk(fs.tree) && Ordinary(it.path) && TF.Room(TF.Created(), |it.data|, 0, junk)
    requires Install(fs, it, junk) == Some(gs) && AllGood(s) && Resolve(fs.tree, Top(fs), s).Some?
    ensures TreeOk(gs.tree) && Resolve(gs.tree, Top(gs), s) == Resolve(fs.tree, Top(fs), s)
  {
    var (w, n) := Create(fs.tree, Some(fs.tree.root), it.path, BaseName(it.path), it.dir).value;
    InstallTree(fs.tree, it, w, n, s);
    if Segs(it.path) <= s { PrefixFound(fs.tree, Top(fs), Segs(it.path), s); }
  }

  lemma {:induction false} PlacedStands(q: Sys, w: Plan, j: nat, it: Item) returns (d: nat, i: nat, k: nat)
    requires PlanOk(w) && On(q, w, j) && j < |w.sizes| && ProperAt(w, j) && ItemOf(EntryAt(w, j).image) == Some(it)
    requires it.path != [] && !Advanced(q, w.junks).halted
    ensures Stands(Advanced(q, w.junks), d, i, k, KeyOf(w.ps[j], it.path), |q.tree.nodes|, Segs(it.path))
    ensures !HasSlot(q.tree, d, i, k)
  {
    d := PlacedBy(q, w, j, it);
    i, k := MadeLeads(q.boot.ram, q.tree, d, KeyOf(q.boot.p, it.path), it.dir);
    ViewOk(q.boot.ram, q.tree);
    QuietItem(q, w, j, it, View(q.boot.ram, q.tree));
    InstallFindsNew(FsOf(q), it, w.junks[j], FsOf(Advanced(q, w.junks)));
    AdvancedOk(q, w.junks);
  }

  lemma {:induction false} PlacedStandsOn(q: Sys, w: Plan, j: nat, it: Item, d: nat, i: nat, k: nat, key: PT.Key,
                                          n: nat,
                                          segs: seq<Text>)
    requires PlanOk(w) && On(q, w, j) && j < |w.sizes| && ProperAt(w, j) && ItemOf(EntryAt(w, j).image) == Some(it)
    requires !Advanced(q, w.junks).halted && Stands(q, d, i, k, key, n, segs) && AllGood(segs)
    ensures Stands(Advanced(q, w.junks), d, i, k, key, n, segs)
  {
    var e := PlacedBy(q, w, j, it);
    MadeKeeps(q.boot.ram, q.tree, e, KeyOf(q.boot.p, it.path), it.dir, d, i, k, n);
    QuietItem(q, w, j, it, View(q.boot.ram, q.tree));
    InstallFindsOld(FsOf(q), it, w.junks[j], FsOf(Advanced(q, w.junks)), segs);
    AdvancedOk(q, w.junks);
  }

  lemma {:induction false} TurnStands(q: Sys, w: Plan, j: nat, d: nat, i: nat, k: nat, key: PT.Key, n: nat,
                                      segs: seq<Text>)
    requires PlanOk(w) && On(q, w, j) && j < |w.sizes| && ProperAt(w, j) && !Advanced(q, w.junks).halted
    requires Stands(q, d, i, k, key, n, segs) && AllGood(segs)
    ensures Stands(Advanced(q, w.junks), d, i, k, key, n, segs)
  {
    var x := ItemOf(EntryAt(w, j).image);
    if x.None? { AdvanceSkips(q, w, j); } else { PlacedStandsOn(q, w, j, x.value, d, i, k, key, n, segs); }
  }

  lemma {:induction false} StandsToEnd(qs: seq<Sys>, w: Plan, j: nat, m: nat, d: nat, i: nat, k: nat, key: PT.Key,
                                       n: nat,
                                       segs: seq<Text>)
    requires QuietRun(qs, w) && j <= m <= |w.sizes| && Stands(qs[j], d, i, k, key, n, segs) && AllGood(segs)
    ensures Stands(qs[m], d, i, k, key, n, segs)
    decreases m
  {
    if j < m {
      StandsToEnd(qs, w, j, m - 1, d, i, k, key, n, segs);
      assert QuietTurn(qs, w, m - 1);
      TurnStands(qs[m - 1], w, m - 1, d, i, k, key, n, segs);
    }
  }

  /** A path that is sure at the end has the key of its last component out of reach. */
  lemma SureFirm(q: Sys, d: nat, i: nat, k: nat, key: PT.Key, n: nat, segs: seq<Text>)
    requires Stands(q, d, i, k, key, n, segs) && segs != [] && SureEnd(q, segs)
    ensures PT.Firm(key, AR.Open(q.boot))
  {
    var ram, t, last := q.boot.ram, q.tree, segs[|segs| - 1];
    var v := View(ram, t);
    ResolveLast(v, TopOf(q), segs);
    var e := Resolve(v, TopOf(q), segs[..|segs| - 1]).value;
    var a, c := ChildSlot(ram, t, e, last, n);
    ChildFound(ram, t, e, last, n, t.nodes[e].table.value);
    SurePathLast(ram, t, AR.Open(q.boot), TopOf(q), segs, e);
  }

  // ----- The exact condition -----

  /** Whatever others do, the path of the i-th member leads to it. */
  ghost predicate Lasts(b: AR.Boot, w: Plan, q: Sys, i: nat)
    requires SysOk(q)
  {
    && ProperAt(w, i)
    && var it := ItemOf(EntryAt(w, i).image);
       it.Some? ==> Undisturbed(b, |w.sizes|, w.junks, q, it.value.path)
  }

  lemma {:induction false} LastsFirm(b: AR.Boot, qs: seq<Sys>, w: Plan, i: nat, it: Item, segs: seq<Text>)
    requires QuietRun(qs, w) && qs[0] == AtStart(b) && i < |w.sizes| && ProperAt(w, i)
    requires ItemOf(EntryAt(w, i).image) == Some(it) && segs == Segs(it.path)
    ensures it.path != [] && segs != [] && AllGood(segs)
    ensures Undisturbed(b, |w.sizes|, w.junks, qs[|w.sizes|], it.path)
            <==> SureAll(qs, w) && SureEnd(qs[|w.sizes|], segs)
    ensures SureEnd(qs[|w.sizes|], segs) ==> PT.Firm(KeyOf(w.ps[i], it.path), AR.Open(qs[|w.sizes|].boot))
  {
    assert QuietTurn(qs, w, i);
    NameOf(it.path);
    OrdinaryNonempty(it.path);
    var d, a, k := PlacedStands(qs[i], w, i, it);
    var key, n := KeyOf(w.ps[i], it.path), |qs[i].tree.nodes|;
    StandsToEnd(qs, w, i + 1, |w.sizes|, d, a, k, key, n, segs);
    BootExactly(qs, w, segs);
    if SureEnd(qs[|w.sizes|], segs) { SureFirm(qs[|w.sizes|], d, a, k, key, n, segs); }
  }

  lemma {:induction false} SurePrefix(ram: seq<Byte>, t: Vtree, open: set<nat>, cur: nat, segs: seq<Text>, m: nat)
    requires VtreeOk(t) && cur < |t.nodes| && m <= |segs| && SurePath(ram, t, open, cur, segs)
    ensures SurePath(ram, t, open, cur, segs[..m])
    decreases |segs|
  {
    if m > 0 && t.nodes[cur].table.Some? {
      var c := Child(View(ram, t), cur, segs[0]);
      assert segs[..m][0] == segs[0] && segs[..m][1..] == segs[1..][..m - 1];
      if c.Some? { SurePrefix(ram, t, open, c.value, segs[1..], m - 1); }
    }
  }

  /** A path is kept only if neither its last component nor that of a directory on its way is within reach. */
  lemma {:induction false} PathNeedsFirm(b: AR.Boot, qs: seq<Sys>, w: Plan, i: nat, it: Item, j: nat, dir: Item)
    requires QuietRun(qs, w) && qs[0] == AtStart(b)
    requires i < |w.sizes| && ProperAt(w, i) && j < |w.sizes| && ProperAt(w, j)
    requires ItemOf(EntryAt(w, i).image) == Some(it) && ItemOf(EntryAt(w, j).image) == Some(dir)
    requires Segs(dir.path) <= Segs(it.path) && Undisturbed(b, |w.sizes|, w.junks, qs[|w.sizes|], it.path)
    ensures dir.path != [] && PT.Firm(KeyOf(w.ps[j], dir.path), AR.Open(qs[|w.sizes|].boot))
  {
    LastsFirm(b, qs, w, i, it, Segs(it.path));
    SureEndPrefix(qs[|w.sizes|], Segs(dir.path), Segs(it.path));
    LastsFirm(b, qs, w, j, dir, Segs(dir.path));
  }

  lemma SureEndPrefix(q: Sys, front: seq<Text>, segs: seq<Text>)
    requires SysOk(q) && front <= segs && SureEnd(q, segs)
    ensures SureEnd(q, front)
  {
    SurePrefix(q.boot.ram, q.tree, AR.Open(q.boot), TopOf(q), segs, |front|);
    assert segs[..|front|] == front;
  }

  /** Names stand in memory that was in use as the walk began. */
  lemma {:induction false} KeyShut(qs: seq<Sys>, w: Plan, i: nat, it: Item, a: nat)
    requires QuietRun(qs, w) && i < |w.sizes| && ProperAt(w, i) && ItemOf(EntryAt(w, i).image) == Some(it)
    requires it.path != []
    requires var key := KeyOf(w.ps[i], it.path); key.at <= a < key.at + key.len
    ensures a / FRAME !in AR.Open(qs[0].boot)
  {
    assert QuietTurn(qs, w, i) && QuietTurn(qs, w, 0);
    ItemStands(qs[i], w, i, it);
    if i > 0 { RouteAscends(w.ram, w.ps, w.sizes, 0, i); }
    assert w.ps[i + 1] + BLOCK <= w.end;
    UnreadShut(qs[0], w, 0, a);
  }

  /** So it is only frames freed by the walk that matter. */
  lemma {:induction false} FirmEither(qs: seq<Sys>, w: Plan, i: nat)
    requires QuietRun(qs, w) && i < |w.sizes|
    ensures FirmAt(w, i, AR.Open(qs[|w.sizes|].boot)) <==> FirmAt(w, i, Reused(w, qs[0].boot.limit, |w.sizes|))
  {
    var n := |w.sizes|;
    OpensExactly(qs, w, n);
    assert ProperAt(w, i);
    var x := ItemOf(EntryAt(w, i).image);
    if x.Some? {
      var it := x.value;
      OrdinaryNonempty(it.path);
      var key := KeyOf(w.ps[i], it.path);
      forall a: nat | key.at <= a < key.at + key.len
        ensures a / FRAME in AR.Open(qs[n].boot) <==> a / FRAME in Reused(w, qs[0].boot.limit, n)
      {
        KeyShut(qs, w, i, it, a);
      }
    }
  }

  lemma FirmSame(qs: seq<Sys>, w: Plan)
    requires QuietRun(qs, w)
    ensures FirmKeys(w, AR.Open(qs[|w.sizes|].boot)) <==> FirmKeys(w, Reused(w, qs[0].boot.limit, |w.sizes|))
  {
    var open, reused := AR.Open(qs[|w.sizes|].boot), Reused(w, qs[0].boot.limit, |w.sizes|);
    forall i: nat | i < |w.sizes| ensures FirmAt(w, i, open) <==> FirmAt(w, i, reused) { FirmEither(qs, w, i); }
  }

  lemma {:induction false} LastsExactly(b: AR.Boot, qs: seq<Sys>, w: Plan)
    requires QuietRun(qs, w) && qs[0] == AtStart(b)
    ensures (forall i: nat :: i < |w.sizes| ==> Lasts(b, w, qs[|w.sizes|], i))
            <==> FirmKeys(w, AR.Open(qs[|w.sizes|].boot))
  {
    var n, q, open := |w.sizes|, qs[|w.sizes|], AR.Open(qs[|w.sizes|].boot);
    FirstTreeKeys(b.ram, Firmly(open));
    forall i: nat | i < n
      ensures (Lasts(b, w, q, i) ==> FirmAt(w, i, open)) && (FirmKeys(w, open) ==> Lasts(b, w, q, i))
    {
      assert ProperAt(w, i);
      var x := ItemOf(EntryAt(w, i).image);
      if x.Some? {
        LastsFirm(b, qs, w, i, x.value, Segs(x.value.path));
        if FirmKeys(w, open) { FirmBoot(qs, w, Segs(x.value.path)); }
      }
    }
  }

  /** An archive in order: all its paths lead to their members at the end of every run, whoever overwrites the
      frames that the walk hands back, if and only if no such frame that the allocator hands out holds a byte
      of the last component of a member's path. */
  lemma {:induction false} FirmExactly(b: AR.Boot, ms: seq<Member>, tail: seq<Byte>, junks: seq<seq<Byte>>, w: Plan,
                                       xs: seq<Entry>, qs: seq<Sys>)
    requires Ready(b, ms, tail, junks) && AllProper(xs) && Ordered([], xs)
    requires w == PlanOf(b, ms, tail, junks) && xs == Listed(ms, junks) && qs == QuietBoot(b, ms, tail, junks)
    ensures |w.sizes| == |ms| < |w.ps|
    ensures (forall i: nat :: i < |ms| ==> Lasts(b, w, qs[|ms|], i)) <==> FirmKeys(w, Reused(w, b.limit, |ms|))
  {
    QuietInOrder(b, ms, tail, junks, w, xs, qs);
    LastsExactly(b, qs, w);
    FirmSame(qs, w);
  }

  lemma {:induction false} QuietInOrder(b: AR.Boot, ms: seq<Member>, tail: seq<Byte>, junks: seq<seq<Byte>>, w: Plan,
                                        xs: seq<Entry>, qs: seq<Sys>)
    requires Ready(b, ms, tail, junks) && AllProper(xs) && Ordered([], xs)
    requires w == PlanOf(b, ms, tail, junks) && xs == Listed(ms, junks) && qs == QuietBoot(b, ms, tail, junks)
    ensures QuietRun(qs, w) && qs[0] == AtStart(b) && |w.sizes| == |ms| < |w.ps| && qs[0].boot.limit == b.limit
  {
    EntriesListed(b, ms, tail, junks, w);
    StartOn(b, ms, tail, junks, w);
    QuietEnds(AtStart(b), w, xs, qs, Fs(Mounted(), map[]));
  }

  lemma {:induction false} SmallFrees(ps: seq<nat>, sizes: seq<nat>, n: nat)
    requires n <= |sizes| && n <= |ps| && forall i :: 0 <= i < |sizes| ==> StepLen(sizes[i]) < FRAME
    ensures FreedBy(ps, sizes, n) == {}
    decreases n
  {
    if n > 0 { SmallFrees(ps, sizes, n - 1); }
  }

  /** So nothing can happen to an archive of members of less than a frame each, header included. */
  lemma {:induction false} SmallLasts(b: AR.Boot, ms: seq<Member>, tail: seq<Byte>, junks: seq<seq<Byte>>, w: Plan,
                                      xs: seq<Entry>, qs: seq<Sys>, i: nat)
    requires Ready(b, ms, tail, junks) && AllProper(xs) && Ordered([], xs) && i < |ms|
    requires w == PlanOf(b, ms, tail, junks) && xs == Listed(ms, junks) && qs == QuietBoot(b, ms, tail, junks)
    requires forall k :: 0 <= k < |w.sizes| ==> StepLen(w.sizes[k]) < FRAME
    ensures Lasts(b, w, qs[|ms|], i)
  {
    FirmExactly(b, ms, tail, junks, w, xs, qs);
    SmallFrees(w.ps, w.sizes, |ms|);
    PlanIsOk(b, ms, tail, junks, w);
    forall k: nat | k < |ms| ensures FirmAt(w, k, Reused(w, b.limit, |ms|)) {
      assert ProperAt(w, k);
      var it := ItemOf(EntryAt(w, k).image);
      if it.Some? { OrdinaryNonempty(it.value.path); }
    }
  }
}
