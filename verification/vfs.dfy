/** Path lookup and creation over the tree of file-system nodes. Nodes are numbered in the order they
    are created; children is the directory's hash table, seen as the map it refines. */
module FileTree {
  import opened Words
  import opened Strings

  datatype Node = Node(children: Option<map<Text, nat>>, mountpoint: Option<nat>, link: Option<nat>)

  datatype Tree = Tree(nodes: seq<Node>, root: nat)

  const DOTDOT: Text := [46, 46]

  /** Buckets of a directory's table. */
  const TABLE_SIZE := 256

  /** An ordinary path segment. */
  predicate Good(name: Text) { name != [] && SLASH !in name && name != DOT && name != DOTDOT }

  predicate AllGood(segs: seq<Text>) { forall i :: 0 <= i < |segs| ==> Good(segs[i]) }

  // ----- Well-formed trees -----

  predicate NodeOk(v: Tree, i: nat)
    requires i < |v.nodes|
  {
    var x := v.nodes[i];
    && (x.mountpoint.Some? ==> i < x.mountpoint.value < |v.nodes| && v.nodes[x.mountpoint.value].link.None?)
    && (x.link.Some? ==> x.children.None? && x.link.value < |v.nodes| && v.nodes[x.link.value].link.None?)
    && (x.children.Some? ==> forall name :: name in x.children.value ==> x.children.value[name] < |v.nodes|)
  }

  /** c is d's child of this name. */
  predicate Edge(v: Tree, d: nat, name: Text, c: nat)
  {
    && d < |v.nodes| && v.nodes[d].children.Some?
    && name in v.nodes[d].children.value && v.nodes[d].children.value[name] == c
  }

  /** Ordinary entries lead from older to newer nodes, and no node has two of them. */
  ghost predicate Rooted(v: Tree)
  {
    && (forall d: nat, name, c: nat :: Edge(v, d, name, c) && Good(name) ==> d < c)
    && forall d: nat, e: nat, m, n, c: nat ::
         Edge(v, d, m, c) && Edge(v, e, n, c) && Good(m) && Good(n) ==> d == e && m == n
  }

  ghost predicate TreeOk(v: Tree)
  {
    v.root < |v.nodes| && (forall i: nat :: i < |v.nodes| ==> NodeOk(v, i)) && Rooted(v)
  }

  // ----- Lookup -----

  /** Through mount points and links to the node that stands behind n. */
  function Reduce(v: Tree, n: nat): (r: nat)
    requires TreeOk(v) && n < |v.nodes|
    ensures r < |v.nodes| && v.nodes[r].mountpoint.None? && v.nodes[r].link.None?
    decreases if v.nodes[n].link.Some? then 1 else 0, |v.nodes| - n
  {
    assert NodeOk(v, n);
    if v.nodes[n].mountpoint.Some? then Reduce(v, v.nodes[n].mountpoint.value)
    else if v.nodes[n].link.Some? then Reduce(v, v.nodes[n].link.value)
    else n
  }

  /** Fault is the null dereference of looking inside a node that is no directory. */
  datatype Found = Fault | Found(parent: Option<nat>, result: Option<nat>)

  /** The loop over path segments: cur is looked in, par is the last directory seen. */
  function Walk(v: Tree, cur: nat, par: nat, segs: seq<Text>): Found
    requires TreeOk(v) && cur < |v.nodes|
    decreases |segs|
  {
    if segs == [] then Found(Some(par), Some(cur))
    else if v.nodes[cur].children.None? then Fault
    else if segs[0] in v.nodes[cur].children.value then
      assert NodeOk(v, cur);
      var n := v.nodes[cur].children.value[segs[0]];
      Walk(v, n, if v.nodes[n].children.Some? then n else par, segs[1..])
    else if |segs| > 1 then Found(None, None)
    else Found(Some(par), None)
  }

  function Leading(path: Text): (k: nat)
    ensures k <= |path| && (forall i :: 0 <= i < k ==> path[i] == SLASH) && (k < |path| ==> path[k] != SLASH)
    decreases |path|
  {
    if path == [] || path[0] != SLASH then 0 else 1 + Leading(path[1..])
  }

  /** The part of a path between its leading slashes and one trailing slash. */
  function Body(path: Text): Text
    requires Leading(path) < |path|
  {
    path[Leading(path)..|path| - if path[|path| - 1] == SLASH then 1 else 0]
  }

  function Start(v: Tree, parent: Option<nat>): (r: nat)
    requires TreeOk(v) && (parent.Some? ==> parent.value < |v.nodes|)
    ensures r < |v.nodes|
  {
    Reduce(v, if parent.None? then v.root else parent.value)
  }

  function PathToNode(v: Tree, parent: Option<nat>, path: Text): Found
    requires TreeOk(v) && (parent.Some? ==> parent.value < |v.nodes|)
  {
    if path == [] then Found(None, None)
    else
      var start := Start(v, parent);
      var base := if path[0] == SLASH then Reduce(v, v.root) else start;
      if Leading(path) == |path| then Found(Some(start), Some(base))
      else Walk(v, base, start, Split(Body(path)))
  }

  // ----- Lookup is a fold of child lookups -----

  function Child(v: Tree, d: nat, name: Text): Option<nat>
    requires d < |v.nodes|
  {
    if v.nodes[d].children.Some? && name in v.nodes[d].children.value
    then Some(v.nodes[d].children.value[name])
    else None
  }

  function Resolve(v: Tree, cur: nat, segs: seq<Text>): (r: Option<nat>)
    requires TreeOk(v) && cur < |v.nodes|
    ensures r.Some? ==> r.value < |v.nodes|
    decreases |segs|
  {
    if segs == [] then Some(cur)
    else
      assert NodeOk(v, cur);
      match Child(v, cur, segs[0])
      case None => None
      case Some(n) => Resolve(v, n, segs[1..])
  }

  lemma {:induction false} WalkIsFold(v: Tree, cur: nat, par: nat, segs: seq<Text>)
    requires TreeOk(v) && cur < |v.nodes| && Walk(v, cur, par, segs) != Fault
    ensures Walk(v, cur, par, segs).result == Resolve(v, cur, segs)
    decreases |segs|
  {
    if segs != [] && segs[0] in v.nodes[cur].children.value {
      assert NodeOk(v, cur);
      var n := v.nodes[cur].children.value[segs[0]];
      WalkIsFold(v, n, if v.nodes[n].children.Some? then n else par, segs[1..]);
    }
  }

  /** A text that neither starts nor ends with a slash is the body of itself between slashes. */
  lemma {:induction false} BodyIs(j: Text, k: nat, e: nat, path: Text)
    requires j != [] && j[0] != SLASH && j[|j| - 1] != SLASH && e <= 1 && path == Slashes(k) + j + Slashes(e)
    ensures Leading(path) == k && k < |path| && Body(path) == j
  {
    assert path[k] == j[0] && forall i :: 0 <= i < k ==> path[i] == Slashes(k)[i];
    LeadingIs(path, k);
    assert path[|path| - 1] == if e == 1 then Slashes(e)[0] else j[|j| - 1];
    assert path[k..k + |j|] == j;
  }

  lemma {:induction false} LastGood(j: Text, last: Text)
    requires Good(last) && |last| <= |j| && j[|j| - |last|..] == last
    ensures j != [] && j[|j| - 1] != SLASH
  {
    assert j[|j| - 1] == j[|j| - |last|..][|last| - 1] && last[|last| - 1] in last;
  }

  lemma {:induction false} JoinStarts(segs: seq<Text>)
    requires segs != [] && AllGood(segs)
    ensures Join(segs) != [] && Join(segs)[0] != SLASH
  {
    assert segs[0][0] in segs[0];
  }

  lemma {:induction false} JoinStops(segs: seq<Text>)
    requires segs != [] && AllGood(segs)
    ensures Join(segs) != [] && Join(segs)[|Join(segs)| - 1] != SLASH
  {
    JoinEnds(segs);
    LastGood(Join(segs), segs[|segs| - 1]);
  }

  lemma {:induction false} BodyOf(segs: seq<Text>, k: nat, e: nat, j: Text, path: Text)
    requires segs != [] && AllGood(segs) && e <= 1 && j == Join(segs) && path == Slashes(k) + j + Slashes(e)
    ensures Leading(path) == k && k < |path| && Body(path) == j && Split(j) == segs
  {
    SplitJoin(segs);
    JoinStarts(segs);
    JoinStops(segs);
    BodyIs(j, k, e, path);
  }

  lemma {:induction false} LeadingIs(path: Text, k: nat)
    requires k < |path| && (forall i :: 0 <= i < k ==> path[i] == SLASH) && path[k] != SLASH
    ensures Leading(path) == k
  {
  }

  /** A path of ordinary segments: k slashes lead it, e slashes (at most one) trail it. */
  predicate PathOf(segs: seq<Text>, k: nat, e: nat, path: Text)
  {
    segs != [] && AllGood(segs) && e <= 1 && path == Slashes(k) + Join(segs) + Slashes(e)
  }

  /** Where such a path is looked up from. */
  function Base(v: Tree, parent: Option<nat>, k: nat): (r: nat)
    requires TreeOk(v) && (parent.Some? ==> parent.value < |v.nodes|)
    ensures r < |v.nodes|
  {
    if k > 0 then Reduce(v, v.root) else Start(v, parent)
  }

  lemma {:induction false} PathWalks(v: Tree, parent: Option<nat>, segs: seq<Text>, k: nat, e: nat, path: Text)
    requires TreeOk(v) && (parent.Some? ==> parent.value < |v.nodes|) && PathOf(segs, k, e, path)
    ensures PathToNode(v, parent, path) == Walk(v, Base(v, parent, k), Start(v, parent), segs)
  {
    BodyOf(segs, k, e, Join(segs), path);
    assert path[0] == SLASH <==> k > 0;
  }

  /** A path of ordinary segments is looked up by folding child lookups over the segments. */
  lemma {:induction false} PathIsFold(v: Tree, parent: Option<nat>, segs: seq<Text>, k: nat, e: nat, path: Text)
    requires TreeOk(v) && (parent.Some? ==> parent.value < |v.nodes|) && PathOf(segs, k, e, path)
    requires PathToNode(v, parent, path) != Fault
    ensures PathToNode(v, parent, path).result == Resolve(v, Base(v, parent, k), segs)
  {
    PathWalks(v, parent, segs, k, e, path);
    WalkIsFold(v, Base(v, parent, k), Start(v, parent), segs);
  }
}
