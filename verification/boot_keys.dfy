/** The boot loop as it is: the entries it makes have keys that stand in the archive, in memory it hands back.
    Compared with the boot that nobody else disturbs: when does every other one come to the same? */
module BootKeys {
  import opened Words
  import opened FrameAllocator
  import opened Strings
  import opened FileTree
  import opened FileCreation
  import opened BootArchive
  import opened BootFiles
  import opened BootTree
  import opened KeyedTree
  import opened Runs
  import AR = ArchiveReclaim
  import HT = HashTable
  import PT = PointerTable
  import TF = TempFiles

  /** The walk through the archive, the node tree and the contents of its regular files; halted on a failed
      assertion. */
  datatype Sys = Sys(boot: AR.Boot, tree: Vtree, files: map<nat, TF.File>, halted: bool)

  ghost predicate SysOk(s: Sys) { VtreeOk(s.tree) }

  /** What paths and files are, with memory as it is. */
  ghost function FsOf(s: Sys): Fs { Fs(View(s.boot.ram, s.tree), s.files) }

  // ----- One turn -----

  /** Where basename leaves the last component of a path that stands at p. */
  function KeyOf(p: nat, path: Text): PT.Key
    requires path != []
  {
    var from, end := CutStart(path, CutEnd(path) - 1), CutEnd(path);
    PT.Mem(p + from, end - from)
  }

  /** basename overwrites trailing slashes. */
  function Trim(ram: seq<Byte>, p: nat, path: Text): (r: seq<Byte>)
    requires path != [] && p + |path| <= |ram|
    ensures |r| == |ram|
    ensures forall a: nat :: a < |ram| ==> r[a] == if p + CutEnd(path) <= a < p + |path| then 0 else ram[a]
  {
    seq(|ram|, a requires 0 <= a < |ram| => if p + CutEnd(path) <= a < p + |path| then 0 else ram[a])
  }

  /** The member at the walk's header, if there is one, and the memory its file's reallocation finds. */
  function Current(b: AR.Boot, junks: seq<seq<Byte>>): Option<Entry>
  {
    if !AR.Readable(b.ram, b.p) then None
    else
      var junk := if |b.seen| < |junks| then junks[|b.seen|] else [];
      Some(Entry(b.ram[b.p..b.p + StepLen(SizeAt(b.ram, b.p))], junk))
  }

  /** The directory a creation enters its node in. */
  ghost function ParentOf(v: Tree, it: Item): nat
    requires TreeOk(v) && Create(v, Some(v.root), it.path, BaseName(it.path), it.dir).Some?
  {
    PathToNode(v, Some(v.root), it.path).parent.value
  }

  /** vfs_create and the write, for the item at header p. */
  ghost function Entered(s: Sys, it: Item, junk: seq<Byte>, b: AR.Boot): Sys
    requires SysOk(s) && TF.Room(TF.Created(), |it.data|, 0, junk) && b.ram == s.boot.ram
    requires it.path != [] && s.boot.p + |it.path| <= |b.ram| && PT.Spelt(b.ram, KeyOf(s.boot.p, it.path)) != []
  {
    ViewOk(b.ram, s.tree);
    var v, n := View(b.ram, s.tree), |s.tree.nodes|;
    if Create(v, Some(v.root), it.path, BaseName(it.path), it.dir).None? then s.(halted := true)
    else
      var t := Made(b.ram, s.tree, ParentOf(v, it), KeyOf(s.boot.p, it.path), it.dir);
      var files := if it.dir then s.files else s.files[n := TF.Write(TF.Created(), it.data, 0, junk)];
      Sys(b.(ram := Trim(b.ram, s.boot.p, it.path)), t, files, false)
  }

  lemma PathInside(image: seq<Byte>)
    ensures |UpToNul(image)| <= |image| && UpToNul(image) == image[..|UpToNul(image)|]
  {
  }

  lemma PartOfName(ram: seq<Byte>, p: nat, q: nat, image: seq<Byte>, n: nat, path: Text, from: nat, end: nat)
    requires p <= q <= |ram| && image == ram[p..q] && n <= |image| && path == image[..n] && from <= end <= n
    ensures ram[p + from..p + end] == path[from..end]
  {
    forall k | 0 <= k < end - from ensures ram[p + from..p + end][k] == path[from..end][k] {
      assert path[from + k] == image[from + k];
    }
  }

  lemma SpeltAt(ram: seq<Byte>, p: nat, from: nat, end: nat, part: Text)
    requires from <= end && p + end <= |ram| && part == ram[p + from..p + end]
    ensures PT.Spelt(ram, PT.Mem(p + from, end - from)) == part
  {
    assert p + from + (end - from) == p + end;
  }

  lemma BaseNameParts(path: Text, from: nat, end: nat)
    requires path != [] && end == CutEnd(path) && from == CutStart(path, end - 1)
    ensures from < end <= |path| && BaseName(path) == path[from..end] && BaseName(path) != []
  {
    assert |path[from..end]| == end - from;
  }

  /** The name is where its header is. */
  lemma KeySpells(ram: seq<Byte>, p: nat, q: nat, image: seq<Byte>, path: Text)
    requires p <= q <= |ram| && image == ram[p..q] && path == UpToNul(image) && path != []
    ensures p + |path| <= q && PT.Spelt(ram, KeyOf(p, path)) == BaseName(path) != []
  {
    PathInside(image);
    var n, end := |path|, CutEnd(path);
    var from := CutStart(path, end - 1);
    BaseNameParts(path, from, end);
    PartOfName(ram, p, q, image, n, path, from, end);
    SpeltAt(ram, p, from, end, path[from..end]);
  }

  /** One turn of the loop. */
  ghost function Advanced(s: Sys, junks: seq<seq<Byte>>): Sys
    requires SysOk(s)
  {
    var x, b := Current(s.boot, junks), AR.Turned(s.boot, AR.Advance);
    if s.halted || x.None? then s
    else if !EntryOk(x.value) then s.(halted := true)
    else
      match ItemOf(x.value.image)
      case None => s.(boot := b)
      case Some(it) =>
        if it.path == [] then s.(halted := true)
        else
          KeySpells(b.ram, s.boot.p, s.boot.p + StepLen(SizeAt(b.ram, s.boot.p)), x.value.image, it.path);
          Entered(s, it, x.value.junk, b)
  }

  lemma EnteredOk(s: Sys, it: Item, junk: seq<Byte>, b: AR.Boot)
    requires SysOk(s) && TF.Room(TF.Created(), |it.data|, 0, junk) && b.ram == s.boot.ram
    requires it.path != [] && s.boot.p + |it.path| <= |b.ram| && PT.Spelt(b.ram, KeyOf(s.boot.p, it.path)) != []
    ensures SysOk(Entered(s, it, junk, b))
  {
    ViewOk(b.ram, s.tree);
    var v := View(b.ram, s.tree);
    if Create(v, Some(v.root), it.path, BaseName(it.path), it.dir).Some? {
      MadeOk(b.ram, s.tree, ParentOf(v, it), KeyOf(s.boot.p, it.path), it.dir);
    }
  }

  lemma AdvancedOk(s: Sys, junks: seq<seq<Byte>>)
    requires SysOk(s)
    ensures SysOk(Advanced(s, junks))
  {
    var x := Current(s.boot, junks);
    if !s.halted && x.Some? && EntryOk(x.value) && ItemOf(x.value.image).Some? {
      var it := ItemOf(x.value.image).value;
      if it.path != [] {
        var ram := s.boot.ram;
        KeySpells(ram, s.boot.p, s.boot.p + StepLen(SizeAt(ram, s.boot.p)), x.value.image, it.path);
        EnteredOk(s, it, x.value.junk, AR.Turned(s.boot, AR.Advance));
      }
    }
  }

  /** A turn of the loop, or somebody taking frames or writing to them. */
  ghost function Turn(s: Sys, junks: seq<seq<Byte>>, t: AR.Turn): Sys
  {
    if s.halted || !SysOk(s) then s
    else if t.Advance? then Advanced(s, junks)
    else s.(boot := AR.Turned(s.boot, t))
  }

  ghost function Turner(junks: seq<seq<Byte>>): (Sys, AR.Turn) -> Sys { (s, t) => Turn(s, junks, t) }

  ghost function Turns(s: Sys, junks: seq<seq<Byte>>, ts: seq<AR.Turn>): Sys { Play(Turner(junks), s, ts) }

  // ----- The walk, as it was meant to go -----

  /** Memory at the start, the headers in it, what lies between them, and where the archive ends. */
  datatype Plan = Plan(ram: seq<Byte>, ps: seq<nat>, sizes: seq<nat>, junks: seq<seq<Byte>>, end: nat)

  predicate Between(w: Plan, i: nat)
  {
    i + 1 < |w.ps| && i < |w.junks| && w.ps[i] <= w.ps[i + 1] <= |w.ram|
  }

  function EntryAt(w: Plan, i: nat): Entry
    requires Between(w, i)
  {
    Entry(w.ram[w.ps[i]..w.ps[i + 1]], w.junks[i])
  }

  predicate ProperAt(w: Plan, i: nat) { Between(w, i) && Proper(EntryAt(w, i)) }

  ghost predicate PlanOk(w: Plan)
  {
    && Route(w.ram, w.ps, w.sizes) && AR.Ends(w.ps, w.end) && w.end <= |w.ram| && |w.junks| == |w.sizes|
    && forall i: nat :: i < |w.sizes| ==> ProperAt(w, i)
  }

  /** Keys stand before p. */
  ghost predicate Below(t: Vtree, p: nat) { AllKeys(t, Before(p)) }

  ghost function Before(p: nat): PT.Key -> bool { k => KeyBelow(k, p) }

  predicate KeyBelow(k: PT.Key, p: nat) { k.Mem? ==> k.at + k.len <= p }

  /** The system is before the j-th member. */
  ghost predicate On(s: Sys, w: Plan, j: nat)
  {
    && SysOk(s) && !s.halted && AR.Safe(s.boot, w.end, w.ram) && AR.OnRoute(s.boot, w.ram, w.ps, w.sizes, j)
    && Below(s.tree, s.boot.p)
  }

  /** What the loop reads is what was archived. */
  lemma CurrentIs(s: Sys, w: Plan, j: nat)
    requires PlanOk(w) && On(s, w, j)
    ensures j < |w.sizes| ==> ProperAt(w, j) && Current(s.boot, w.junks) == Some(EntryAt(w, j))
    ensures j < |w.sizes| ==>
              SizeAt(s.boot.ram, s.boot.p) == w.sizes[j] && w.ps[j + 1] == s.boot.p + StepLen(w.sizes[j])
    ensures j == |w.sizes| ==> Current(s.boot, w.junks) == None
  {
    var b := s.boot;
    AR.HeaderIntact(b, w.end, w.ram);
    if j < |w.sizes| {
      assert TurnAt(w.ram, w.ps, w.sizes, j) && w.ps[j + 1] + BLOCK <= w.end && ProperAt(w, j);
      AR.SliceIntact(b, w.end, w.ram, b.p, w.ps[j + 1]);
    }
  }

  // ----- What others can write to -----

  /** A turn of the loop opens the frames it frees, but for those the allocator does not hand out. */
  lemma AdvanceOpens(b: AR.Boot)
    requires AR.Readable(b.ram, b.p)
    ensures AR.Open(AR.Turned(b, AR.Advance)) ==
            AR.Open(b) + set f | f in Freed(b.p, SizeAt(b.ram, b.p)) && 1 <= f < b.limit
  {
  }

  lemma OthersKeepOpen(b: AR.Boot, t: AR.Turn)
    requires !t.Advance?
    ensures AR.Open(AR.Turned(b, t)) == AR.Open(b) && PT.Outside(b.ram, AR.Turned(b, t).ram, AR.Open(b))
  {
  }

  /** What is still to be read is not open. */
  lemma UnreadShut(s: Sys, w: Plan, j: nat, a: nat)
    requires On(s, w, j) && s.boot.p <= a < w.end
    ensures a / FRAME !in AR.Open(s.boot) && a < |s.boot.ram| && s.boot.ram[a] == w.ram[a]
  {
    assert AR.Unread(s.boot.p, w.end, a / FRAME);
  }

  // ----- A turn, on the tree that memory shows -----

  ghost function TopOf(s: Sys): nat
    requires SysOk(s)
  {
    ViewOk(s.boot.ram, s.tree);
    Reduce(View(s.boot.ram, s.tree), s.tree.root)
  }

  /** The directory that a path can be created in: where its segments but the last lead, if the last is
      free there. */
  ghost function Spot(v: Tree, segs: seq<Text>): (d: Option<nat>)
    requires TreeOk(v) && segs != []
    ensures d.Some? ==> d.value < |v.nodes| && v.nodes[d.value].children.Some?
  {
    if Vacant(v, Reduce(v, v.root), segs) then Resolve(v, Reduce(v, v.root), segs[..|segs| - 1]) else None
  }

  lemma {:induction false} SpotIsParent(v: Tree, it: Item)
    requires TreeOk(v) && Ordinary(it.path)
    ensures Segs(it.path) != [] && AllGood(Segs(it.path))
    ensures Create(v, Some(v.root), it.path, BaseName(it.path), it.dir).Some? <==> Spot(v, Segs(it.path)).Some?
    ensures Spot(v, Segs(it.path)).Some? ==> Spot(v, Segs(it.path)) == Some(ParentOf(v, it))
  {
    var segs, k, e := PathParts(it.path);
    var base := Reduce(v, v.root);
    CreateExactly(v, segs, k, e, it.path, it.dir);
    if Vacant(v, base, segs) {
      PathWalks(v, Some(v.root), segs, k, e, it.path);
      WalkMissesExactly(v, base, base, segs);
      WalkParent(v, base, base, segs);
      if |segs| == 1 { assert segs[..0] == []; }
    }
  }

  /** The turn for an item, once its place is known. */
  ghost function Placed(s: Sys, it: Item, junk: seq<Byte>, d: nat): Sys
    requires SysOk(s) && d < |s.tree.nodes| && s.tree.nodes[d].table.Some? && TF.Room(TF.Created(), |it.data|, 0, junk)
    requires it.path != [] && s.boot.p + |it.path| <= |s.boot.ram|
    requires PT.Spelt(s.boot.ram, KeyOf(s.boot.p, it.path)) != []
  {
    var b, n := AR.Turned(s.boot, AR.Advance), |s.tree.nodes|;
    Sys(b.(ram := Trim(b.ram, s.boot.p, it.path)), Made(b.ram, s.tree, d, KeyOf(s.boot.p, it.path), it.dir),
        if it.dir then s.files else s.files[n := TF.Write(TF.Created(), it.data, 0, junk)], false)
  }

  lemma OrdinaryNonempty(path: Text)
    requires Ordinary(path)
    ensures path != []
  {
  }

  /** The name of the member at hand stands behind its header. */
  lemma ItemStands(s: Sys, w: Plan, j: nat, it: Item)
    requires PlanOk(w) && On(s, w, j) && j < |w.sizes| && ProperAt(w, j) && ItemOf(EntryAt(w, j).image) == Some(it)
    ensures it.path != [] && s.boot.p + |it.path| <= w.ps[j + 1] <= |s.boot.ram|
    ensures PT.Spelt(s.boot.ram, KeyOf(s.boot.p, it.path)) == BaseName(it.path) != []
    ensures TF.Room(TF.Created(), |it.data|, 0, w.junks[j])
  {
    CurrentIs(s, w, j);
    OrdinaryNonempty(it.path);
    PathInside(EntryAt(w, j).image);
    KeySpells(s.boot.ram, s.boot.p, w.ps[j + 1], EntryAt(w, j).image, it.path);
  }

  /** An item without a place ends the boot. */
  lemma AdvanceHalts(s: Sys, w: Plan, j: nat, it: Item, v: Tree)
    requires PlanOk(w) && On(s, w, j) && j < |w.sizes| && ProperAt(w, j) && ItemOf(EntryAt(w, j).image) == Some(it)
    requires v == View(s.boot.ram, s.tree) && TreeOk(v) && Segs(it.path) != [] && Spot(v, Segs(it.path)) == None
    ensures Advanced(s, w.junks) == s.(halted := true)
  {
    CurrentIs(s, w, j);
    ItemStands(s, w, j, it);
    SpotIsParent(v, it);
  }

  /** One with a place is put there. */
  lemma AdvancePlaces(s: Sys, w: Plan, j: nat, it: Item, v: Tree, d: nat)
    requires PlanOk(w) && On(s, w, j) && j < |w.sizes| && ProperAt(w, j) && ItemOf(EntryAt(w, j).image) == Some(it)
    requires v == View(s.boot.ram, s.tree) && TreeOk(v) && Segs(it.path) != [] && Spot(v, Segs(it.path)) == Some(d)
    requires it.path != [] && s.boot.p + |it.path| <= |s.boot.ram|
    requires PT.Spelt(s.boot.ram, KeyOf(s.boot.p, it.path)) != []
    requires TF.Room(TF.Created(), |it.data|, 0, w.junks[j])
    ensures Advanced(s, w.junks) == Placed(s, it, w.junks[j], d)
  {
    CurrentIs(s, w, j);
    SpotIsParent(v, it);
  }

  lemma AdvanceSkips(s: Sys, w: Plan, j: nat)
    requires PlanOk(w) && On(s, w, j) && j < |w.sizes| && ProperAt(w, j) && ItemOf(EntryAt(w, j).image) == None
    ensures Advanced(s, w.junks) == s.(boot := AR.Turned(s.boot, AR.Advance))
  {
    CurrentIs(s, w, j);
  }

  lemma AdvanceEnds(s: Sys, w: Plan, j: nat)
    requires PlanOk(w) && On(s, w, j) && j == |w.sizes|
    ensures Advanced(s, w.junks) == s
  {
    CurrentIs(s, w, j);
  }

  // ----- The invariant of the walk -----

  lemma TrimSafe(b: AR.Boot, w: Plan, j: nat, p: nat, path: Text)
    requires AR.Safe(b, w.end, w.ram) && AR.OnRoute(b, w.ram, w.ps, w.sizes, j) && path != [] && p + |path| <= b.p
    requires p + |path| <= |b.ram|
    ensures
      var c := b.(ram := Trim(b.ram, p, path));
      AR.Safe(c, w.end, w.ram) && AR.OnRoute(c, w.ram, w.ps, w.sizes, j)
  {
    var c := b.(ram := Trim(b.ram, p, path));
    forall i: nat | i < j ensures AR.Seen(c, w.ram, w.ps, i) { assert AR.Seen(b, w.ram, w.ps, i); }
  }

  lemma BelowMore(t: Vtree, p: nat, q: nat)
    requires Below(t, p) && p <= q
    ensures Below(t, q)
  {
    forall d: nat, i: nat, j: nat | HasSlot(t, d, i, j) ensures Before(q)(SlotOf(t, d, i, j).key) {
      assert Before(p)(SlotOf(t, d, i, j).key);
    }
  }

  /** A turn that places an item leads on to the next member. */
  lemma PlacedOn(s: Sys, w: Plan, j: nat, it: Item, d: nat)
    requires PlanOk(w) && On(s, w, j) && j < |w.sizes| && ProperAt(w, j) && ItemOf(EntryAt(w, j).image) == Some(it)
    requires d < |s.tree.nodes| && s.tree.nodes[d].table.Some? && TF.Room(TF.Created(), |it.data|, 0, w.junks[j])
    requires it.path != [] && s.boot.p + |it.path| <= |s.boot.ram|
    requires PT.Spelt(s.boot.ram, KeyOf(s.boot.p, it.path)) != []
    ensures On(Placed(s, it, w.junks[j], d), w, j + 1)
  {
    CurrentIs(s, w, j);
    ItemStands(s, w, j, it);
    AR.AdvanceSafe(s.boot, w.end, w.ram);
    AR.AdvanceOnRoute(s.boot, w.end, w.ram, w.ps, w.sizes, j);
    var b, key := AR.Turned(s.boot, AR.Advance), KeyOf(s.boot.p, it.path);
    TrimSafe(b, w, j + 1, s.boot.p, it.path);
    MadeOk(s.boot.ram, s.tree, d, key, it.dir);
    BelowMore(s.tree, s.boot.p, b.p);
    MadeKeys(s.boot.ram, s.tree, d, key, it.dir, Before(b.p));
  }

  lemma SkippedOn(s: Sys, w: Plan, j: nat)
    requires PlanOk(w) && On(s, w, j) && j < |w.sizes|
    ensures On(s.(boot := AR.Turned(s.boot, AR.Advance)), w, j + 1)
  {
    CurrentIs(s, w, j);
    AR.AdvanceSafe(s.boot, w.end, w.ram);
    AR.AdvanceOnRoute(s.boot, w.end, w.ram, w.ps, w.sizes, j);
    BelowMore(s.tree, s.boot.p, AR.Turned(s.boot, AR.Advance).p);
  }

  lemma OtherOn(s: Sys, w: Plan, j: nat, t: AR.Turn)
    requires PlanOk(w) && On(s, w, j) && !t.Advance?
    ensures On(Turn(s, w.junks, t), w, j)
  {
    AR.OtherOnRoute(s.boot, t, w.ram, w.ps, w.sizes, j);
    match t
    case Take(n) => AR.TakeSafe(s.boot, n, w.end, w.ram);
    case Store(a, v) => AR.StoreSafe(s.boot, a, v, w.end, w.ram);
  }

  // ----- Two boots that agree -----

  /** The same tables and files, at the same header, and memory that differs in open frames only. */
  ghost predicate Agree(s: Sys, q: Sys)
  {
    && s.tree == q.tree && s.files == q.files && s.boot.p == q.boot.p && s.boot.limit == q.boot.limit
    && AR.Open(s.boot) == AR.Open(q.boot) && PT.Outside(q.boot.ram, s.boot.ram, AR.Open(q.boot))
  }

  lemma OtherAgrees(s: Sys, q: Sys, junks: seq<seq<Byte>>, t: AR.Turn)
    requires SysOk(s) && !s.halted && Agree(s, q) && !t.Advance?
    ensures Agree(Turn(s, junks, t), q)
  {
    OthersKeepOpen(s.boot, t);
  }

  /** The walk itself goes on alike. */
  lemma WalkAgrees(s: Sys, q: Sys, w: Plan, j: nat)
    requires PlanOk(w) && On(s, w, j) && On(q, w, j) && j < |w.sizes| && Agree(s, q)
    ensures
      var b, c := AR.Turned(s.boot, AR.Advance), AR.Turned(q.boot, AR.Advance);
      && b.p == c.p && b.limit == c.limit && AR.Open(b) == AR.Open(c) && AR.Open(q.boot) <= AR.Open(c)
      && b.ram == s.boot.ram && c.ram == q.boot.ram && PT.Outside(c.ram, b.ram, AR.Open(c))
  {
    CurrentIs(s, w, j);
    CurrentIs(q, w, j);
    AdvanceOpens(s.boot);
    AdvanceOpens(q.boot);
  }

  lemma TrimAgrees(ram: seq<Byte>, r: seq<Byte>, open: set<nat>, p: nat, path: Text)
    requires PT.Outside(ram, r, open) && path != [] && p + |path| <= |ram|
    ensures PT.Outside(Trim(ram, p, path), Trim(r, p, path), open)
  {
  }

  lemma SureOne(ram: seq<Byte>, t: Vtree, open: set<nat>, d: nat, segs: seq<Text>)
    requires VtreeOk(t) && |segs| == 1 && TreeOk(View(ram, t)) && d < |t.nodes| && t.nodes[d].table.Some?
    ensures SurePath(ram, t, open, d, segs) <==> SureStep(ram, t, open, d, segs[0])
  {
    var c := Child(View(ram, t), d, segs[0]);
    if c.Some? {
      var i, j := ChildSlot(ram, t, d, segs[0], c.value);
      assert segs[1..] == [] && SurePath(ram, t, open, c.value, []);
    }
  }

  lemma SureMore(ram: seq<Byte>, t: Vtree, open: set<nat>, cur: nat, segs: seq<Text>, c: nat)
    requires VtreeOk(t) && cur < |t.nodes| && segs != [] && Child(View(ram, t), cur, segs[0]) == Some(c)
    ensures c < |t.nodes| && t.nodes[cur].table.Some?
    ensures SurePath(ram, t, open, cur, segs) <==>
            SureStep(ram, t, open, cur, segs[0]) && SurePath(ram, t, open, c, segs[1..])
  {
    var i, j := ChildSlot(ram, t, cur, segs[0], c);
  }

  /** The last search along a path, apart from the others. */
  lemma {:induction false} SurePathLast(ram: seq<Byte>, t: Vtree, open: set<nat>, cur: nat, segs: seq<Text>, d: nat)
    requires VtreeOk(t) && cur < |t.nodes| && segs != [] && TreeOk(View(ram, t)) && d < |t.nodes|
    requires t.nodes[d].table.Some?
    requires Resolve(View(ram, t), cur, segs[..|segs| - 1]) == Some(d)
    ensures SurePath(ram, t, open, cur, segs) <==>
            SurePath(ram, t, open, cur, segs[..|segs| - 1]) && SureStep(ram, t, open, d, segs[|segs| - 1])
    decreases |segs|
  {
    var front := segs[..|segs| - 1];
    if |segs| == 1 {
      assert front == [];
      SureOne(ram, t, open, cur, segs);
    } else {
      assert front[0] == segs[0];
      var c, rest := Child(View(ram, t), cur, segs[0]).value, segs[1..];
      assert front[1..] == rest[..|rest| - 1] && rest[|rest| - 1] == segs[|segs| - 1];
      SureMore(ram, t, open, cur, segs, c);
      SureMore(ram, t, open, cur, front, c);
      SurePathLast(ram, t, open, c, rest, d);
    }
  }

  lemma TopSame(ram: seq<Byte>, r: seq<Byte>, t: Vtree)
    requires VtreeOk(t)
    ensures TreeOk(View(ram, t)) && TreeOk(View(r, t)) && Reduce(View(r, t), t.root) == Reduce(View(ram, t), t.root)
  {
    ViewOk(ram, t);
    ViewOk(r, t);
    ReduceSame(View(ram, t), View(r, t), t.root);
  }

  /** A path that is sure of its place has the same place in the other memory. */
  lemma {:induction false} SureSpot(ram: seq<Byte>, r: seq<Byte>, t: Vtree, open: set<nat>, segs: seq<Text>, d: nat)
    requires VtreeOk(t) && PT.Outside(ram, r, open) && segs != [] && AllGood(segs) && TreeOk(View(ram, t))
    requires Spot(View(ram, t), segs) == Some(d) && SurePath(ram, t, open, Reduce(View(ram, t), t.root), segs)
    ensures TreeOk(View(r, t)) && Spot(View(r, t), segs) == Some(d) && SureStep(ram, t, open, d, segs[|segs| - 1])
  {
    var base, front := Reduce(View(ram, t), t.root), segs[..|segs| - 1];
    TopSame(ram, r, t);
    SurePathLast(ram, t, open, base, segs, d);
    assert AllGood(front) && Good(segs[|segs| - 1]);
    SurePathStays(ram, r, t, open, base, front);
    SureChild(ram, r, t, open, d, segs[|segs| - 1]);
  }
}
