/** Which boot archives install: exactly those that name no path twice and every directory before what is in
    it. Then the whole tree is known. */
module BootTree {
  import opened Words
  import opened Strings
  import opened FileTree
  import opened FileCreation
  import opened BootArchive
  import opened BootFiles
  import TF = TempFiles

  // ----- When vfs_create succeeds -----

  /** Where the segments but the last lead there is a directory without an entry of the last name. */
  predicate Vacant(v: Tree, base: nat, segs: seq<Text>)
    requires TreeOk(v) && base < |v.nodes| && segs != []
  {
    var d := Resolve(v, base, segs[..|segs| - 1]);
    d.Some? && v.nodes[d.value].children.Some? && Child(v, d.value, segs[|segs| - 1]).None?
  }

  predicate Misses(f: Found) { f.Found? && f.parent.Some? && f.result.None? }

  lemma {:induction false} WalkMissesExactly(v: Tree, cur: nat, par: nat, segs: seq<Text>)
    requires TreeOk(v) && cur < |v.nodes| && segs != []
    ensures Misses(Walk(v, cur, par, segs)) <==> Vacant(v, cur, segs)
    decreases |segs|
  {
    var front := segs[..|segs| - 1];
    if |segs| == 1 {
      assert front == [];
      if Child(v, cur, segs[0]).Some? { assert segs[1..] == []; }
    } else if Child(v, cur, segs[0]).Some? {
      assert NodeOk(v, cur);
      var n := Child(v, cur, segs[0]).value;
      WalkMissesExactly(v, n, if v.nodes[n].children.Some? then n else par, segs[1..]);
      assert front[0] == segs[0] && front[1..] == segs[1..][..|segs| - 2];
      assert segs[1..][|segs| - 2] == segs[|segs| - 1];
    } else {
      assert front[0] == segs[0];
    }
  }

  /** From the root, a path of ordinary segments can be created exactly when its place is vacant. */
  lemma {:induction false} CreateExactly(v: Tree, segs: seq<Text>, k: nat, e: nat, path: Text, dir: bool)
    requires TreeOk(v) && PathOf(segs, k, e, path)
    ensures Create(v, Some(v.root), path, segs[|segs| - 1], dir).Some? <==> Vacant(v, Reduce(v, v.root), segs)
  {
    var base := Reduce(v, v.root);
    PathWalks(v, Some(v.root), segs, k, e, path);
    WalkMissesExactly(v, base, base, segs);
    if Misses(Walk(v, base, base, segs)) {
      WalkParent(v, base, base, segs);
      if |segs| == 1 { assert segs[..0] == []; }
    }
  }

  lemma InstallExactly(fs: Fs, it: Item, junk: seq<Byte>)
    requires FsOk(fs) && Ordinary(it.path) && TF.Room(TF.Created(), |it.data|, 0, junk)
    ensures Segs(it.path) != [] && (Install(fs, it, junk).Some? <==> Vacant(fs.tree, Top(fs), Segs(it.path)))
  {
    var segs, k, e := PathParts(it.path);
    CreateExactly(fs.tree, segs, k, e, it.path, it.dir);
  }

  // ----- The tree is the archive's -----

  /** The entry is an item with this path. */
  predicate Names(x: Entry, s: seq<Text>)
  {
    Proper(x) && ItemOf(x.image).Some? && Segs(ItemOf(x.image).value.path) == s
  }

  ghost predicate Named(xs: seq<Entry>, s: seq<Text>) { exists j :: 0 <= j < |xs| && Names(xs[j], s) }

  ghost predicate DirNamed(xs: seq<Entry>, s: seq<Text>)
  {
    exists j :: 0 <= j < |xs| && Names(xs[j], s) && ItemOf(xs[j].image).value.dir
  }

  ghost predicate IsDir(fs: Fs, s: seq<Text>)
    requires TreeOk(fs.tree)
  {
    var r := Resolve(fs.tree, Top(fs), s);
    r.Some? && fs.tree.nodes[r.value].children.Some?
  }

  /** The path finds something exactly if an entry has it, and a directory exactly if that is one. */
  ghost predicate MirrorsAt(fs: Fs, xs: seq<Entry>, s: seq<Text>)
    requires TreeOk(fs.tree)
  {
    (Resolve(fs.tree, Top(fs), s).Some? <==> Named(xs, s)) && (IsDir(fs, s) <==> DirNamed(xs, s))
  }

  ghost predicate Mirrors(fs: Fs, xs: seq<Entry>)
  {
    && FsOk(fs) && IsDir(fs, [])
    && forall s: seq<Text> {:trigger MirrorsAt(fs, xs, s)} :: s != [] && AllGood(s) ==> MirrorsAt(fs, xs, s)
  }

  /** x can come after xs: it is passed over, or its path is new and leads to an earlier directory. */
  ghost predicate Follows(xs: seq<Entry>, x: Entry)
    requires Proper(x)
  {
    ItemOf(x.image).Some? ==>
      var segs := Segs(ItemOf(x.image).value.path);
      !Named(xs, segs) && (|segs| > 1 ==> DirNamed(xs, segs[..|segs| - 1]))
  }

  lemma VacantExactly(fs: Fs, xs: seq<Entry>, segs: seq<Text>)
    requires Mirrors(fs, xs) && segs != [] && AllGood(segs)
    ensures Vacant(fs.tree, Top(fs), segs) <==> !Named(xs, segs) && (|segs| > 1 ==> DirNamed(xs, segs[..|segs| - 1]))
  {
    var front := segs[..|segs| - 1];
    ResolveLast(fs.tree, Top(fs), segs);
    assert MirrorsAt(fs, xs, segs);
    if |segs| > 1 { assert MirrorsAt(fs, xs, front); } else { assert front == []; }
  }

  lemma StepSucceedsExactly(fs: Fs, xs: seq<Entry>, x: Entry)
    requires Mirrors(fs, xs) && Proper(x)
    ensures Step(fs, x).Some? <==> Follows(xs, x)
  {
    if ItemOf(x.image).Some? {
      var it := ItemOf(x.image).value;
      InstallExactly(fs, it, x.junk);
      VacantExactly(fs, xs, Segs(it.path));
    }
  }

  lemma NamedAppend(xs: seq<Entry>, x: Entry, s: seq<Text>)
    ensures Named(xs + [x], s) <==> Named(xs, s) || Names(x, s)
    ensures DirNamed(xs + [x], s) <==> DirNamed(xs, s) || (Names(x, s) && ItemOf(x.image).value.dir)
  {
    var ys := xs + [x];
    assert ys[|xs|] == x && forall j :: 0 <= j < |xs| ==> ys[j] == xs[j];
    if Named(xs, s) {
      var j :| 0 <= j < |xs| && Names(xs[j], s);
      assert Names(ys[j], s);
    }
    if DirNamed(xs, s) {
      var j :| 0 <= j < |xs| && Names(xs[j], s) && ItemOf(xs[j].image).value.dir;
      assert Names(ys[j], s) && ItemOf(ys[j].image).value.dir;
    }
  }

  lemma StepMirrorsAt(fs: Fs, xs: seq<Entry>, x: Entry, gs: Fs, s: seq<Text>)
    requires Mirrors(fs, xs) && Proper(x) && Step(fs, x) == Some(gs) && s != [] && AllGood(s)
    ensures TreeOk(gs.tree) && MirrorsAt(gs, xs + [x], s)
  {
    assert MirrorsAt(fs, xs, s);
    NamedAppend(xs, x, s);
    if ItemOf(x.image).Some? {
      var it := ItemOf(x.image).value;
      var (w, n) := Create(fs.tree, Some(fs.tree.root), it.path, BaseName(it.path), it.dir).value;
      InstallTree(fs.tree, it, w, n, s);
      if Segs(it.path) <= s && Resolve(fs.tree, Top(fs), s).Some? { PrefixFound(fs.tree, Top(fs), Segs(it.path), s); }
    }
  }

  lemma StepKeepsTop(fs: Fs, x: Entry, gs: Fs)
    requires FsOk(fs) && IsDir(fs, []) && Proper(x) && Step(fs, x) == Some(gs)
    ensures FsOk(gs) && IsDir(gs, [])
  {
    StepOk(fs, x, gs);
    if ItemOf(x.image).Some? {
      var it := ItemOf(x.image).value;
      var (w, n) := Create(fs.tree, Some(fs.tree.root), it.path, BaseName(it.path), it.dir).value;
      InstallTree(fs.tree, it, w, n, []);
      var segs, k, e := PathParts(it.path);
    }
  }

  lemma StepMirrors(fs: Fs, xs: seq<Entry>, x: Entry, gs: Fs)
    requires Mirrors(fs, xs) && Proper(x) && Step(fs, x) == Some(gs)
    ensures Mirrors(gs, xs + [x])
  {
    StepKeepsTop(fs, x, gs);
    forall s: seq<Text> | s != [] && AllGood(s) ensures MirrorsAt(gs, xs + [x], s) { StepMirrorsAt(fs, xs, x, gs, s); }
  }

  // ----- The whole archive -----

  /** Every entry can come after those before it. */
  ghost predicate Ordered(done: seq<Entry>, xs: seq<Entry>)
    requires AllProper(xs)
    decreases |xs|
  {
    xs == [] || (Follows(done, xs[0]) && Ordered(done + [xs[0]], xs[1..]))
  }

  lemma {:induction false} InstallsExactly(fs: Fs, done: seq<Entry>, xs: seq<Entry>)
    requires Mirrors(fs, done) && AllProper(xs)
    ensures InstallAll(fs, xs).Some? <==> Ordered(done, xs)
    ensures InstallAll(fs, xs).Some? ==> Mirrors(InstallAll(fs, xs).value, done + xs)
    decreases |xs|
  {
    if xs == [] { assert done + xs == done; }
    else {
      StepSucceedsExactly(fs, done, xs[0]);
      if Step(fs, xs[0]).Some? {
        var gs := Step(fs, xs[0]).value;
        StepMirrors(fs, done, xs[0], gs);
        InstallsExactly(gs, done + [xs[0]], xs[1..]);
        assert done + [xs[0]] + xs[1..] == done + xs;
      }
    }
  }

  /** What vfs_init leaves: a root directory with a file system mounted on it, whose own directory has its
      "." and ".." entries. */
  function Mounted(): Tree
  {
    Tree([Node(Some(map[[SLASH] := 1]), Some(1), None), Node(Some(map[DOT := 2][DOTDOT := 3]), None, None),
          Node(None, None, Some(1)), Node(None, None, Some(0))], 0)
  }

  /** It is what the calls make of a lone root directory: a node "/" for the mounted file system, the mount
      point, and create_dot with the root as parent. */
  lemma MountedIs()
    ensures
      var v := AddNode(Tree([Node(Some(map[]), None, None)], 0), 0, BaseName([SLASH]), true);
      && |v.nodes| == 2 && v.nodes[1].children.Some?
      && CreateDot(v.(nodes := v.nodes[0 := v.nodes[0].(mountpoint := Some(1))]), 0, 1) == Mounted()
  {
    var v := AddNode(Tree([Node(Some(map[]), None, None)], 0), 0, BaseName([SLASH]), true);
    assert BaseName([SLASH]) == [SLASH];
    var w := v.(nodes := v.nodes[0 := v.nodes[0].(mountpoint := Some(1))]);
    CreateDotIs(w, 0, 1);
    assert Dotted(w, 0, 1).nodes == Mounted().nodes;
  }

  lemma MountedOk()
    ensures TreeOk(Mounted()) && Reduce(Mounted(), 0) == 1
    ensures forall x :: Good(x) ==> Child(Mounted(), 1, x) == None
  {
    var v := Mounted();
    forall i: nat | i < |v.nodes| ensures NodeOk(v, i) { }
    assert SLASH in [SLASH];
    forall d: nat, name, c: nat | Edge(v, d, name, c) ensures !Good(name) { }
  }

  lemma MountedMirrors()
    ensures Mirrors(Fs(Mounted(), map[]), [])
  {
    var fs := Fs(Mounted(), map[]);
    MountedOk();
    forall s: seq<Text> | s != [] && AllGood(s) ensures MirrorsAt(fs, [], s) {
      assert Good(s[0]);
      assert Resolve(fs.tree, 1, s) == None;
    }
  }
}
