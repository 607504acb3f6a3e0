/** Creating nodes: after vfs_create a path finds the new node, and every other path what it found before. */
module FileCreation {
  import opened Words
  import opened Strings
  import opened FileTree

  // ----- Operations -----

  function SetChild(v: Tree, d: nat, name: Text, c: nat): Tree
    requires d < |v.nodes| && v.nodes[d].children.Some?
  {
    v.(nodes := v.nodes[d := v.nodes[d].(children := Some(v.nodes[d].children.value[name := c]))])
  }

  function SetLink(v: Tree, n: nat, target: nat): Tree
    requires n < |v.nodes|
  {
    v.(nodes := v.nodes[n := v.nodes[n].(link := Some(target))])
  }

  /** vfs_create_node: a fresh node, entered in its parent's table. */
  function AddNode(v: Tree, p: nat, name: Text, dir: bool): Tree
    requires p < |v.nodes| && v.nodes[p].children.Some?
  {
    SetChild(v.(nodes := v.nodes + [Node(if dir then Some(map[]) else None, None, None)]), p, name, |v.nodes|)
  }

  /** Two more nodes, links to n and to parent; both are entered in n as "." at first. */
  function DotLinks(v: Tree, parent: nat, n: nat): (w: Tree)
    requires n < |v.nodes| && v.nodes[n].children.Some?
    ensures n < |w.nodes| && w.nodes[n].children.Some?
  {
    var w := AddNode(AddNode(v, n, DOT, false), n, DOT, false);
    SetLink(SetLink(w, |v.nodes|, n), |v.nodes| + 1, parent)
  }

  /** create_dot: the "." and ".." entries of directory n, links to n and to parent. */
  function CreateDot(v: Tree, parent: nat, n: nat): Tree
    requires n < |v.nodes| && v.nodes[n].children.Some?
  {
    SetChild(SetChild(DotLinks(v, parent, n), n, DOT, |v.nodes|), n, DOTDOT, |v.nodes| + 1)
  }

  /** vfs_create; name is the path's last component. */
  function Create(v: Tree, parent: Option<nat>, path: Text, name: Text, dir: bool): Option<(Tree, nat)>
    requires TreeOk(v) && (parent.Some? ==> parent.value < |v.nodes|)
  {
    match PathToNode(v, parent, path)
    case Fault => None
    case Found(p, r) =>
      if p.None? || r.Some? || p.value >= |v.nodes| || v.nodes[p.value].children.None? then None
      else
        var n, w := |v.nodes|, AddNode(v, p.value, name, dir);
        Some((if dir then CreateDot(w, p.value, n) else w, n))
  }

  // ----- What the operations change, in terms of lookups -----

  /** w is v with a new node n, of the kind asked for, that p lists as name; no other lookup, link or mount
      point differs. */
  ghost predicate Gains(v: Tree, w: Tree, p: nat, name: Text, n: nat, dir: bool)
  {
    && |v.nodes| == n && |w.nodes| == n + 1 && w.root == v.root
    && (forall d: nat, x :: d < n ==> Child(w, d, x) == if d == p && x == name then Some(n) else Child(v, d, x))
    && (forall x :: Child(w, n, x) == None)
    && (forall d: nat :: d < n ==> SameButTable(v.nodes[d], w.nodes[d]))
    && SameButTable(Node(if dir then Some(map[]) else None, None, None), w.nodes[n])
  }

  predicate SameButTable(x: Node, y: Node)
  {
    (x.children.Some? <==> y.children.Some?) && x.mountpoint == y.mountpoint && x.link == y.link
  }

  lemma AddNodeGains(v: Tree, p: nat, name: Text, dir: bool)
    requires p < |v.nodes| && v.nodes[p].children.Some?
    ensures Gains(v, AddNode(v, p, name, dir), p, name, |v.nodes|, dir)
  {
  }

  /** w is v with two link nodes more, that n lists as "." and ".." and that lead to n and to parent. */
  ghost predicate GainsDots(v: Tree, w: Tree, parent: nat, n: nat)
  {
    var k := |v.nodes|;
    && |w.nodes| == k + 2 && w.root == v.root && n < k
    && w.nodes[k] == Node(None, None, Some(n)) && w.nodes[k + 1] == Node(None, None, Some(parent))
    && Child(w, n, DOT) == Some(k) && Child(w, n, DOTDOT) == Some(k + 1)
    && (forall d: nat, x :: d < k && (d != n || (x != DOT && x != DOTDOT)) ==> Child(w, d, x) == Child(v, d, x))
    && (forall d: nat :: d < k ==> SameButTable(v.nodes[d], w.nodes[d]))
  }

  lemma CreateDotGains(v: Tree, parent: nat, n: nat)
    requires n < |v.nodes| && v.nodes[n].children.Some?
    ensures GainsDots(v, CreateDot(v, parent, n), parent, n)
  {
    CreateDotIs(v, parent, n);
  }

  // ----- Creation keeps the tree well formed -----

  lemma AddNodeOk(v: Tree, p: nat, name: Text, dir: bool)
    requires TreeOk(v) && p < |v.nodes| && v.nodes[p].children.Some?
    ensures TreeOk(AddNode(v, p, name, dir))
  {
    var w, n := AddNode(v, p, name, dir), |v.nodes|;
    forall i: nat | i < |w.nodes| ensures NodeOk(w, i) { if i < n { assert NodeOk(v, i); } }
    forall d: nat, m, c: nat | Edge(w, d, m, c) ensures Edge(v, d, m, c) || (d == p && m == name && c == n) { }
    forall d: nat, m, c: nat | Edge(v, d, m, c) ensures c < n { assert NodeOk(v, d); }
  }

  /** The tree create_dot leaves. */
  function Dotted(v: Tree, parent: nat, n: nat): Tree
    requires n < |v.nodes| && v.nodes[n].children.Some?
  {
    var k := |v.nodes|;
    v.(nodes := v.nodes[n := v.nodes[n].(children := Some(v.nodes[n].children.value[DOT := k][DOTDOT := k + 1]))]
                + [Node(None, None, Some(n)), Node(None, None, Some(parent))])
  }

  lemma CreateDotIs(v: Tree, parent: nat, n: nat)
    requires n < |v.nodes| && v.nodes[n].children.Some?
    ensures CreateDot(v, parent, n) == Dotted(v, parent, n)
  {
    var a, b := CreateDot(v, parent, n), Dotted(v, parent, n);
    var ch: map<Text, nat>, k: nat := v.nodes[n].children.value, |v.nodes|;
    var once: map<Text, nat>, again: map<Text, nat> := ch[DOT := k], ch[DOT := k][DOT := k + 1][DOT := k];
    assert once == again;
    forall i | 0 <= i < |b.nodes| ensures a.nodes[i] == b.nodes[i] { }
    assert a.nodes == b.nodes;
  }

  lemma DottedOk(v: Tree, parent: nat, n: nat)
    requires TreeOk(v) && n < |v.nodes| && v.nodes[n].children.Some?
    requires parent < |v.nodes| && v.nodes[parent].children.Some?
    ensures TreeOk(Dotted(v, parent, n))
  {
    var w := Dotted(v, parent, n);
    assert NodeOk(v, n) && NodeOk(v, parent);
    forall i: nat | i < |w.nodes| ensures NodeOk(w, i) { if i < |v.nodes| { assert NodeOk(v, i); } }
    forall d: nat, m, c: nat | Edge(w, d, m, c) && Good(m) ensures Edge(v, d, m, c) { }
  }

  /** In a new directory "." leads to the directory itself and ".." to where its parent leads. */
  lemma DotsLead(v: Tree, parent: nat, n: nat)
    requires TreeOk(v) && n < |v.nodes| && v.nodes[n].children.Some?
    requires parent < |v.nodes| && v.nodes[parent].children.Some?
    ensures
      var w := CreateDot(v, parent, n);
      && TreeOk(w) && n < |w.nodes| && parent < |w.nodes|
      && Child(w, n, DOT).Some? && Child(w, n, DOT).value < |w.nodes|
      && Reduce(w, Child(w, n, DOT).value) == Reduce(w, n)
      && Child(w, n, DOTDOT).Some? && Child(w, n, DOTDOT).value < |w.nodes|
      && Reduce(w, Child(w, n, DOTDOT).value) == Reduce(w, parent)
  {
    CreateDotIs(v, parent, n);
    DottedOk(v, parent, n);
  }

  lemma CreateOk(v: Tree, parent: Option<nat>, path: Text, name: Text, dir: bool)
    requires TreeOk(v) && (parent.Some? ==> parent.value < |v.nodes|) && Create(v, parent, path, name, dir).Some?
    ensures TreeOk(Create(v, parent, path, name, dir).value.0)
  {
    var p := PathToNode(v, parent, path).parent.value;
    AddNodeOk(v, p, name, dir);
    if dir {
      CreateDotIs(AddNode(v, p, name, dir), p, |v.nodes|);
      DottedOk(AddNode(v, p, name, dir), p, |v.nodes|);
    }
  }

  // ----- Paths are unique -----

  lemma {:induction false} ResolveSplit(v: Tree, cur: nat, a: seq<Text>, b: seq<Text>)
    requires TreeOk(v) && cur < |v.nodes|
    ensures Resolve(v, cur, a + b) == match Resolve(v, cur, a) case None => None case Some(d) => Resolve(v, d, b)
    decreases |a|
  {
    if a == [] { assert a + b == b; }
    else {
      assert NodeOk(v, cur) && (a + b)[1..] == a[1..] + b && (a + b)[0] == a[0];
      match Child(v, cur, a[0])
      case None =>
      case Some(n) => ResolveSplit(v, n, a[1..], b);
    }
  }

  /** The last step of a lookup. */
  lemma {:induction false} ResolveLast(v: Tree, cur: nat, s: seq<Text>)
    requires TreeOk(v) && cur < |v.nodes| && s != []
    ensures
      match Resolve(v, cur, s[..|s| - 1])
      case None => Resolve(v, cur, s) == None
      case Some(d) => Resolve(v, cur, s) == Child(v, d, s[|s| - 1])
  {
    var a, x := s[..|s| - 1], s[|s| - 1];
    assert s == a + [x];
    ResolveSplit(v, cur, a, [x]);
    match Resolve(v, cur, a)
    case None =>
    case Some(d) =>
      var one: seq<Text> := [x];
      assert NodeOk(v, d) && one[1..] == [];
      match Child(v, d, x) case None => case Some(n) => assert Resolve(v, n, []) == Some(n);
  }

  /** A lookup never leads back to where it began. */
  lemma {:induction false} ResolveNewer(v: Tree, cur: nat, s: seq<Text>)
    requires TreeOk(v) && cur < |v.nodes| && s != [] && AllGood(s) && Resolve(v, cur, s).Some?
    ensures cur < Resolve(v, cur, s).value
    decreases |s|
  {
    assert NodeOk(v, cur);
    var n := Child(v, cur, s[0]).value;
    assert Edge(v, cur, s[0], n);
    if |s| > 1 { ResolveNewer(v, n, s[1..]); } else { assert s[1..] == []; }
  }

  /** Two paths of ordinary segments from one place to one node are the same path. */
  lemma {:induction false} PathUnique(v: Tree, cur: nat, a: seq<Text>, b: seq<Text>)
    requires TreeOk(v) && cur < |v.nodes| && AllGood(a) && AllGood(b)
    requires Resolve(v, cur, a).Some? && Resolve(v, cur, a) == Resolve(v, cur, b)
    ensures a == b
    decreases |a|
  {
    if a == [] && b != [] { ResolveNewer(v, cur, b); }
    else if a != [] && b == [] { ResolveNewer(v, cur, a); }
    else if a != [] {
      ResolveLast(v, cur, a);
      ResolveLast(v, cur, b);
      var d, e := Resolve(v, cur, a[..|a| - 1]).value, Resolve(v, cur, b[..|b| - 1]).value;
      assert Edge(v, d, a[|a| - 1], Resolve(v, cur, a).value) && Edge(v, e, b[|b| - 1], Resolve(v, cur, b).value);
      PathUnique(v, cur, a[..|a| - 1], b[..|b| - 1]);
      assert a == a[..|a| - 1] + [a[|a| - 1]] && b == b[..|b| - 1] + [b[|b| - 1]];
    }
  }

  // ----- A new entry -----

  /** w is v with the new node n entered as name in directory p; n has no ordinary entries. */
  ghost predicate Entered(v: Tree, w: Tree, p: nat, name: Text, n: nat)
  {
    && p < |v.nodes| && |v.nodes| <= n < |w.nodes| && Good(name)
    && (forall d: nat, x :: d < |v.nodes| && d < |w.nodes| && Good(x) ==>
          Child(w, d, x) == if d == p && x == name then Some(n) else Child(v, d, x))
    && (forall x :: Good(x) ==> Child(w, n, x) == None)
  }

  /** What a path finds once segs names n. */
  function Expected(v: Tree, base: nat, segs: seq<Text>, n: nat, s: seq<Text>): Option<nat>
    requires TreeOk(v) && base < |v.nodes|
  {
    if s == segs then Some(n) else if segs <= s then None else Resolve(v, base, s)
  }

  lemma {:induction false} EnteredResolve(v: Tree, w: Tree, base: nat, p: nat, segs: seq<Text>, n: nat, s: seq<Text>)
    requires TreeOk(v) && TreeOk(w) && base < |v.nodes| && segs != [] && AllGood(segs) && AllGood(s)
    requires Entered(v, w, p, segs[|segs| - 1], n) && Resolve(v, base, segs[..|segs| - 1]) == Some(p)
    ensures Resolve(w, base, s) == Expected(v, base, segs, n, s)
    decreases |s|
  {
    if s != [] {
      var a, x := s[..|s| - 1], s[|s| - 1];
      assert s == a + [x];
      EnteredResolve(v, w, base, p, segs, n, a);
      ResolveLast(w, base, s);
      EnteredStep(v, w, base, p, segs, n, a, x);
    }
  }

  lemma {:induction false} EnteredStep(v: Tree, w: Tree, base: nat, p: nat, segs: seq<Text>, n: nat, a: seq<Text>,
                                       x: Text)
    requires TreeOk(v) && TreeOk(w) && base < |v.nodes| && segs != [] && AllGood(segs) && AllGood(a + [x])
    requires Entered(v, w, p, segs[|segs| - 1], n) && Resolve(v, base, segs[..|segs| - 1]) == Some(p)
    requires Resolve(w, base, a) == Expected(v, base, segs, n, a)
    ensures Expected(v, base, segs, n, a + [x]) ==
      match Resolve(w, base, a) case None => None case Some(d) => Child(w, d, x)
  {
    var s, k := a + [x], |segs| - 1;
    assert s[..|s| - 1] == a && s[|s| - 1] == x && Good(x);
    assert segs == segs[..k] + [segs[k]];
    if segs <= a { assert segs <= s && s != segs; }
    else {
      assert segs <= s ==> s == segs;
      ResolveLast(v, base, s);
      if Resolve(v, base, a).Some? && Resolve(v, base, a).value == p {
        assert AllGood(a) by { assert forall i :: 0 <= i < |a| ==> a[i] == s[i]; }
        PathUnique(v, base, a, segs[..k]);
      }
    }
  }

  // ----- vfs_create -----

  /** When only the last segment is missing, the parent found is where the others lead. */
  lemma {:induction false} WalkParent(v: Tree, cur: nat, par: nat, segs: seq<Text>)
    requires TreeOk(v) && cur < |v.nodes| && segs != []
    requires Walk(v, cur, par, segs) != Fault && Walk(v, cur, par, segs).parent.Some?
    requires Walk(v, cur, par, segs).result.None?
    ensures
      var p := Walk(v, cur, par, segs).parent.value;
      if |segs| == 1 then p == par else Resolve(v, cur, segs[..|segs| - 1]) == Some(p)
    decreases |segs|
  {
    if |segs| > 1 {
      assert NodeOk(v, cur);
      var n := v.nodes[cur].children.value[segs[0]];
      WalkParent(v, n, if v.nodes[n].children.Some? then n else par, segs[1..]);
      var a := segs[..|segs| - 1];
      assert a[0] == segs[0] && a[1..] == segs[1..][..|segs| - 2];
      if |segs| == 2 { assert a[1..] == []; }
    }
  }

  lemma {:induction false} ResolvedWalks(v: Tree, cur: nat, par: nat, segs: seq<Text>)
    requires TreeOk(v) && cur < |v.nodes| && Resolve(v, cur, segs).Some?
    ensures Walk(v, cur, par, segs) != Fault
    decreases |segs|
  {
    if segs != [] {
      assert NodeOk(v, cur);
      var n := v.nodes[cur].children.value[segs[0]];
      ResolvedWalks(v, n, if v.nodes[n].children.Some? then n else par, segs[1..]);
    }
  }

  /** Old nodes keep their mount points and links. */
  ghost predicate SameBehind(v: Tree, w: Tree)
  {
    && |v.nodes| <= |w.nodes| && w.root == v.root
    && forall i: nat :: i < |v.nodes| ==>
         w.nodes[i].mountpoint == v.nodes[i].mountpoint && w.nodes[i].link == v.nodes[i].link
  }

  lemma {:induction false} ReduceSame(v: Tree, w: Tree, n: nat)
    requires TreeOk(v) && TreeOk(w) && SameBehind(v, w) && n < |v.nodes|
    ensures Reduce(w, n) == Reduce(v, n)
    decreases if v.nodes[n].link.Some? then 1 else 0, |v.nodes| - n
  {
    assert NodeOk(v, n);
    if v.nodes[n].mountpoint.Some? { ReduceSame(v, w, v.nodes[n].mountpoint.value); }
    else if v.nodes[n].link.Some? { ReduceSame(v, w, v.nodes[n].link.value); }
  }

  lemma AddedEnters(v: Tree, p: nat, name: Text, dir: bool)
    requires p < |v.nodes| && v.nodes[p].children.Some? && Good(name)
    ensures SameBehind(v, AddNode(v, p, name, dir)) && Entered(v, AddNode(v, p, name, dir), p, name, |v.nodes|)
  {
  }

  lemma DottedEnters(v: Tree, u: Tree, parent: nat, p: nat, name: Text, n: nat)
    requires SameBehind(v, u) && Entered(v, u, p, name, n) && u.nodes[n].children.Some?
    ensures SameBehind(v, Dotted(u, parent, n)) && Entered(v, Dotted(u, parent, n), p, name, n)
  {
    var w := Dotted(u, parent, n);
    forall d: nat, x | d < |u.nodes| && Good(x) ensures Child(w, d, x) == Child(u, d, x) { }
  }

  /** A successful vfs_create, taken apart. */
  lemma {:induction false} CreateEnters(v: Tree, parent: Option<nat>, segs: seq<Text>, k: nat, e: nat, path: Text,
                                        dir: bool, w: Tree, n: nat) returns (p: nat)
    requires TreeOk(v) && (parent.Some? ==> parent.value < |v.nodes|) && PathOf(segs, k, e, path)
    requires Create(v, parent, path, segs[|segs| - 1], dir) == Some((w, n))
    ensures TreeOk(w) && SameBehind(v, w) && Entered(v, w, p, segs[|segs| - 1], n)
    ensures Resolve(v, Base(v, parent, k), segs) == None
    ensures if |segs| == 1 then p == Start(v, parent) else Resolve(v, Base(v, parent, k), segs[..|segs| - 1]) == Some(p)
  {
    var name := segs[|segs| - 1];
    PathWalks(v, parent, segs, k, e, path);
    WalkIsFold(v, Base(v, parent, k), Start(v, parent), segs);
    WalkParent(v, Base(v, parent, k), Start(v, parent), segs);
    CreateOk(v, parent, path, name, dir);
    p := PathToNode(v, parent, path).parent.value;
    AddedEnters(v, p, name, dir);
    if dir {
      CreateDotIs(AddNode(v, p, name, dir), p, n);
      DottedEnters(v, AddNode(v, p, name, dir), p, p, name, n);
    }
  }

  /** The new node goes where the path says: always, but for a one-segment absolute path given together
      with a starting directory other than the root. */
  predicate InPlace(v: Tree, parent: Option<nat>, segs: seq<Text>, k: nat)
    requires TreeOk(v) && (parent.Some? ==> parent.value < |v.nodes|)
  {
    |segs| != 1 || Base(v, parent, k) == Start(v, parent)
  }

  /** After vfs_create the path finds the new node and every other ordinary path finds what it found before. */
  lemma {:induction false} CreateThenLookup(v: Tree, parent: Option<nat>, segs: seq<Text>, k: nat, e: nat, path: Text,
                                            dir: bool,
                                            w: Tree, n: nat, s: seq<Text>)
    requires TreeOk(v) && (parent.Some? ==> parent.value < |v.nodes|) && PathOf(segs, k, e, path)
    requires Create(v, parent, path, segs[|segs| - 1], dir) == Some((w, n)) && InPlace(v, parent, segs, k) && AllGood(s)
    ensures TreeOk(w) && |v.nodes| <= |w.nodes| && Base(w, parent, k) == Base(v, parent, k)
    ensures PathToNode(w, parent, path) != Fault && PathToNode(w, parent, path).result == Some(n)
    ensures Resolve(w, Base(w, parent, k), s) == Expected(v, Base(v, parent, k), segs, n, s)
  {
    var p := CreateEnters(v, parent, segs, k, e, path, dir, w, n);
    var base := Base(v, parent, k);
    ReduceSame(v, w, v.root);
    if parent.Some? { ReduceSame(v, w, parent.value); }
    if |segs| == 1 { assert segs[..0] == []; }
    EnteredResolve(v, w, base, p, segs, n, s);
    EnteredResolve(v, w, base, p, segs, n, segs);
    PathWalks(w, parent, segs, k, e, path);
    ResolvedWalks(w, base, Start(w, parent), segs);
    WalkIsFold(w, base, Start(w, parent), segs);
  }

  /** The exact condition for the created path to be found again. */
  lemma {:induction false} CreateFoundExactly(v: Tree, parent: Option<nat>, segs: seq<Text>, k: nat, e: nat,
                                              path: Text, dir: bool, w: Tree, n: nat)
    requires TreeOk(v) && (parent.Some? ==> parent.value < |v.nodes|) && PathOf(segs, k, e, path)
    requires Create(v, parent, path, segs[|segs| - 1], dir) == Some((w, n))
    ensures TreeOk(w) && |v.nodes| <= |w.nodes|
    ensures (Resolve(w, Base(v, parent, k), segs) == Some(n) <==> InPlace(v, parent, segs, k))
  {
    if InPlace(v, parent, segs, k) { CreateThenLookup(v, parent, segs, k, e, path, dir, w, n, segs); }
    else {
      var p := CreateEnters(v, parent, segs, k, e, path, dir, w, n);
      assert segs[..0] == [];
      ResolveLast(v, Base(v, parent, k), segs);
      ResolveLast(w, Base(v, parent, k), segs);
    }
  }

  const A: Text := [97]
  const X: Text := [120]

  /** A root directory with one directory "a". */
  function Small(): Tree
  {
    Tree([Node(Some(map[A := 1]), None, None), Node(Some(map[]), None, None)], 0)
  }

  lemma SmallOk()
    ensures TreeOk(Small())
  {
    var v := Small();
    assert A != DOT;
    forall i: nat | i < |v.nodes| ensures NodeOk(v, i) { }
    forall d: nat, name, c: nat | Edge(v, d, name, c) ensures d == 0 && name == A && c == 1 { }
  }

  /** "/x" created from the directory "a" goes into "a": the path does not find it afterwards. */
  lemma {:induction false} AbsolutePathMissed(dir: bool)
    ensures
      var v, path := Small(), [SLASH] + X;
      && TreeOk(v) && PathOf([X], 1, 0, path) && Create(v, Some(1), path, X, dir).Some?
      && var (w, n) := Create(v, Some(1), path, X, dir).value;
         TreeOk(w) && |v.nodes| <= |w.nodes| && Resolve(w, Base(v, Some(1), 1), [X]) != Some(n)
  {
    var v, path := Small(), [SLASH] + X;
    SmallOk();
    assert X != DOT && X != DOTDOT && Good(X);
    assert Slashes(1) == [SLASH] && Slashes(0) == [];
    assert path == Slashes(1) + Join([X]) + Slashes(0);
    PathWalks(v, Some(1), [X], 1, 0, path);
    assert Base(v, Some(1), 1) == 0 && Start(v, Some(1)) == 1;
    assert X[0] != A[0];
    assert Walk(v, 0, 1, [X]) == Found(Some(1), None);
    var (w, n) := Create(v, Some(1), path, X, dir).value;
    CreateFoundExactly(v, Some(1), [X], 1, 0, path, dir, w, n);
  }
}
