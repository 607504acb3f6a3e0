/** The node tree with directory tables whose keys are pointers. What paths find depends on what memory holds;
    with memory fixed it is the tree of FileTree. */
module KeyedTree {
  import opened Words
  import opened Strings
  import opened FileTree
  import opened FileCreation
  import HT = HashTable
  import PT = PointerTable

  datatype Vnode = Vnode(table: Option<PT.Table>, mountpoint: Option<nat>, link: Option<nat>)

  datatype Vtree = Vtree(nodes: seq<Vnode>, root: nat)

  // ----- The tree that memory makes of it -----

  ghost function Seen(ram: seq<Byte>, x: Vnode): Node
  {
    Node(if x.table.None? then None else Some(HT.AsMap(PT.Read(ram, x.table.value))), x.mountpoint, x.link)
  }

  ghost function View(ram: seq<Byte>, t: Vtree): (v: Tree)
    ensures |v.nodes| == |t.nodes| && v.root == t.root
    ensures forall i :: 0 <= i < |t.nodes| ==> v.nodes[i] == Seen(ram, t.nodes[i])
  {
    Tree(seq(|t.nodes|, i requires 0 <= i < |t.nodes| => Seen(ram, t.nodes[i])), t.root)
  }

  // ----- Well-formed trees -----

  predicate VnodeOk(t: Vtree, i: nat)
    requires i < |t.nodes|
  {
    var x := t.nodes[i];
    && (x.mountpoint.Some? ==> i < x.mountpoint.value < |t.nodes| && t.nodes[x.mountpoint.value].link.None?)
    && (x.link.Some? ==> x.table.None? && x.link.value < |t.nodes| && t.nodes[x.link.value].link.None?)
    && (x.table.Some? ==> PT.TableOk(x.table.value))
  }

  predicate HasSlot(t: Vtree, d: nat, i: nat, j: nat)
  {
    d < |t.nodes| && t.nodes[d].table.Some? && i < |t.nodes[d].table.value| && j < |t.nodes[d].table.value[i]|
  }

  function SlotOf(t: Vtree, d: nat, i: nat, j: nat): PT.Slot
    requires HasSlot(t, d, i, j)
  {
    t.nodes[d].table.value[i][j]
  }

  /** A slot of directory d leads to a newer node; constants name no ordinary entry. */
  predicate SlotOk(t: Vtree, d: nat, i: nat, j: nat)
  {
    HasSlot(t, d, i, j) ==>
      var s := SlotOf(t, d, i, j);
      s.val <= |t.nodes| && (s.key.Lit? ==> !Good(s.key.text)) && (s.val > 0 ==> d < s.val - 1)
  }

  /** The slot leads to node c. */
  predicate LeadsTo(t: Vtree, d: nat, i: nat, j: nat, c: nat) { HasSlot(t, d, i, j) && SlotOf(t, d, i, j).val == c + 1 }

  /** No two slots lead to one node. */
  ghost predicate OneSlot(t: Vtree)
  {
    forall d: nat, i: nat, j: nat, e: nat, k: nat, l: nat, c: nat ::
      LeadsTo(t, d, i, j, c) && LeadsTo(t, e, k, l, c) ==> d == e && i == k && j == l
  }

  ghost predicate VtreeOk(t: Vtree)
  {
    && t.root < |t.nodes| && (forall i: nat :: i < |t.nodes| ==> VnodeOk(t, i))
    && (forall d: nat, i: nat, j: nat :: SlotOk(t, d, i, j)) && OneSlot(t)
  }

  lemma ReadHeaded(ram: seq<Byte>, b: PT.Table)
    requires PT.TableOk(b)
    ensures HT.Headed(PT.Read(ram, b))
  {
    var r: seq<seq<HT.Entry>> := PT.Read(ram, b);
    forall i: nat | i < |r| ensures r[i] != [] && r[i][0].key == [] { assert PT.ChainOk(b[i]); }
  }

  /** The answer of a search, as a node. */
  function Answer(g: nat): Option<nat> { if g == 0 then None else Some(g - 1) }

  /** A child lookup is a search in the directory's table. */
  lemma ChildIs(ram: seq<Byte>, t: Vtree, d: nat, name: Text)
    requires d < |t.nodes| && (t.nodes[d].table.Some? ==> PT.TableOk(t.nodes[d].table.value))
    ensures t.nodes[d].table.None? ==> Child(View(ram, t), d, name) == None
    ensures t.nodes[d].table.Some? ==> Child(View(ram, t), d, name) == Answer(PT.Get(ram, t.nodes[d].table.value, name))
  {
    if t.nodes[d].table.Some? {
      var b := t.nodes[d].table.value;
      ReadHeaded(ram, b);
      HT.AsMapGet(PT.Read(ram, b), name);
      assert View(ram, t).nodes[d].children == Some(HT.AsMap(PT.Read(ram, b)));
    }
  }

  /** Two memories answer alike exactly when the searches do. */
  lemma ChildrenAgree(ram: seq<Byte>, r: seq<Byte>, t: Vtree, d: nat, name: Text, b: PT.Table)
    requires VtreeOk(t) && d < |t.nodes| && t.nodes[d].table == Some(b)
    ensures PT.TableOk(b)
    ensures Child(View(r, t), d, name) == Child(View(ram, t), d, name) <==> PT.Get(r, b, name) == PT.Get(ram, b, name)
  {
    assert VnodeOk(t, d);
    ChildIs(ram, t, d, name);
    ChildIs(r, t, d, name);
  }

  /** A child is found through the slot that leads to it. */
  lemma ChildSlot(ram: seq<Byte>, t: Vtree, d: nat, name: Text, c: nat) returns (i: nat, j: nat)
    requires VtreeOk(t) && d < |t.nodes| && Child(View(ram, t), d, name) == Some(c)
    ensures LeadsTo(t, d, i, j, c) && PT.Spelt(ram, SlotOf(t, d, i, j).key) == name && c < |t.nodes| && d < c
  {
    assert VnodeOk(t, d);
    ChildIs(ram, t, d, name);
    var b := t.nodes[d].table.value;
    i, j := HT.Index(name, |b|), PT.Found(ram, b, name);
    assert PT.Read(ram, b)[i] == PT.ReadChain(ram, b[i]);
    assert SlotOk(t, d, i, j);
  }

  /** It is the slot that the search finds. */
  lemma ChildFound(ram: seq<Byte>, t: Vtree, d: nat, name: Text, c: nat, b: PT.Table)
    requires VtreeOk(t) && d < |t.nodes| && Child(View(ram, t), d, name) == Some(c) && t.nodes[d].table == Some(b)
    ensures |b| > 0 && LeadsTo(t, d, HT.Index(name, |b|), PT.Found(ram, b, name), c)
  {
    assert VnodeOk(t, d);
    ChildIs(ram, t, d, name);
    var i := HT.Index(name, |b|);
    assert PT.Read(ram, b)[i] == PT.ReadChain(ram, b[i]);
  }

  lemma ViewNodeOk(ram: seq<Byte>, t: Vtree, d: nat)
    requires VtreeOk(t) && d < |t.nodes|
    ensures NodeOk(View(ram, t), d)
  {
    var v := View(ram, t);
    assert VnodeOk(t, d);
    if v.nodes[d].children.Some? {
      forall name | name in v.nodes[d].children.value ensures v.nodes[d].children.value[name] < |v.nodes| {
        var i, j := ChildSlot(ram, t, d, name, v.nodes[d].children.value[name]);
      }
    }
  }

  /** Whatever memory holds, the view is a well-formed tree. */
  lemma ViewOk(ram: seq<Byte>, t: Vtree)
    requires VtreeOk(t)
    ensures TreeOk(View(ram, t))
  {
    var v := View(ram, t);
    forall d: nat | d < |v.nodes| ensures NodeOk(v, d) { ViewNodeOk(ram, t, d); }
    forall d: nat, name, c: nat | Edge(v, d, name, c) ensures d < c { var i, j := ChildSlot(ram, t, d, name, c); }
    forall d: nat, e: nat, m, n, c: nat | Edge(v, d, m, c) && Edge(v, e, n, c) ensures d == e && m == n {
      var i, j := ChildSlot(ram, t, d, m, c);
      var k, l := ChildSlot(ram, t, e, n, c);
    }
  }

  // ----- Entering nodes -----

  function SetIn(ram: seq<Byte>, t: Vtree, d: nat, key: PT.Key, c: nat): Vtree
    requires d < |t.nodes| && t.nodes[d].table.Some? && |t.nodes[d].table.value| > 0
  {
    t.(nodes := t.nodes[d := t.nodes[d].(table := Some(PT.Set(ram, t.nodes[d].table.value, key, c + 1)))])
  }

  lemma SetInView(ram: seq<Byte>, t: Vtree, d: nat, key: PT.Key, c: nat)
    requires d < |t.nodes| && t.nodes[d].table.Some? && PT.TableOk(t.nodes[d].table.value)
    ensures View(ram, SetIn(ram, t, d, key, c)) == SetChild(View(ram, t), d, PT.Spelt(ram, key), c)
  {
    var b := t.nodes[d].table.value;
    PT.SetReads(ram, b, key, c + 1);
    ReadHeaded(ram, b);
    HT.AsMapSet(PT.Read(ram, b), PT.Spelt(ram, key), c);
    assert View(ram, SetIn(ram, t, d, key, c)).nodes == SetChild(View(ram, t), d, PT.Spelt(ram, key), c).nodes;
  }

  /** The slot that a set writes. */
  function SetAt(ram: seq<Byte>, b: PT.Table, key: PT.Key): (nat, nat)
    requires |b| > 0
  {
    (HT.Index(PT.Spelt(ram, key), |b|), PT.Found(ram, b, PT.Spelt(ram, key)))
  }

  lemma SetSlots(ram: seq<Byte>, t: Vtree, d: nat, key: PT.Key, c: nat, e: nat, i: nat, j: nat)
    requires d < |t.nodes| && t.nodes[d].table.Some? && |t.nodes[d].table.value| > 0
    ensures
      var u, at := SetIn(ram, t, d, key, c), SetAt(ram, t.nodes[d].table.value, key);
      if e == d && (i, j) == at
      then HasSlot(u, e, i, j) && SlotOf(u, e, i, j).val == c + 1
           && SlotOf(u, e, i, j).key == if HasSlot(t, e, i, j) then SlotOf(t, e, i, j).key else key
      else (HasSlot(u, e, i, j) <==> HasSlot(t, e, i, j))
           && (HasSlot(t, e, i, j) ==> SlotOf(u, e, i, j) == SlotOf(t, e, i, j))
  {
  }

  lemma SetTableOk(ram: seq<Byte>, b: PT.Table, key: PT.Key, val: nat)
    requires PT.TableOk(b) && val > 0 && PT.Spelt(ram, key) != []
    requires forall i: nat, j: nat :: i < |b| && j < |b[i]| ==> b[i][j].val != val
    ensures PT.TableOk(PT.Set(ram, b, key, val))
  {
    var r := PT.Set(ram, b, key, val);
    var (i, j) := SetAt(ram, b, key);
    assert PT.ChainOk(b[i]);
    assert PT.ReadChain(ram, b[i])[0].key == [];
    assert j > 0;
    forall k: nat | k < |r| ensures PT.ChainOk(r[k]) { assert PT.ChainOk(b[k]); }
  }

  /** Nothing leads to c yet. */
  ghost predicate Unreached(t: Vtree, c: nat) { forall d: nat, i: nat, j: nat :: !LeadsTo(t, d, i, j, c) }

  lemma SetInSlots(ram: seq<Byte>, t: Vtree, d: nat, key: PT.Key, c: nat)
    requires VtreeOk(t) && d < c < |t.nodes| && t.nodes[d].table.Some? && |t.nodes[d].table.value| > 0
    requires Unreached(t, c) && (key.Lit? ==> !Good(key.text))
    ensures
      var u := SetIn(ram, t, d, key, c);
      (forall e: nat, i: nat, j: nat :: SlotOk(u, e, i, j)) && OneSlot(u)
  {
    var u := SetIn(ram, t, d, key, c);
    forall e: nat, i: nat, j: nat ensures SlotOk(u, e, i, j) {
      SetSlots(ram, t, d, key, c, e, i, j);
      assert SlotOk(t, e, i, j);
    }
    forall e: nat, i: nat, j: nat, f: nat, k: nat, l: nat, x: nat | LeadsTo(u, e, i, j, x) && LeadsTo(u, f, k, l, x)
      ensures e == f && i == k && j == l
    {
      SetSlots(ram, t, d, key, c, e, i, j);
      SetSlots(ram, t, d, key, c, f, k, l);
      assert !LeadsTo(t, e, i, j, c) && !LeadsTo(t, f, k, l, c);
      assert LeadsTo(t, e, i, j, x) && LeadsTo(t, f, k, l, x) ==> e == f && i == k && j == l;
    }
  }

  lemma SetInOk(ram: seq<Byte>, t: Vtree, d: nat, key: PT.Key, c: nat)
    requires VtreeOk(t) && d < c < |t.nodes| && t.nodes[d].table.Some? && PT.Spelt(ram, key) != []
    requires Unreached(t, c) && (key.Lit? ==> !Good(key.text))
    ensures |t.nodes[d].table.value| > 0 && VtreeOk(SetIn(ram, t, d, key, c))
  {
    assert VnodeOk(t, d);
    var b: PT.Table, u := t.nodes[d].table.value, SetIn(ram, t, d, key, c);
    forall i: nat, j: nat | i < |b| && j < |b[i]| ensures b[i][j].val != c + 1 { assert !LeadsTo(t, d, i, j, c); }
    SetTableOk(ram, b, key, c + 1);
    SetInSlots(ram, t, d, key, c);
    forall i: nat | i < |u.nodes| ensures VnodeOk(u, i) { assert VnodeOk(t, i); }
  }

  function Blank(dir: bool): Vnode { Vnode(if dir then Some(PT.Blank(TABLE_SIZE)) else None, None, None) }

  lemma BlankSeen(ram: seq<Byte>, dir: bool)
    ensures Seen(ram, Blank(dir)) == Node(if dir then Some(map[]) else None, None, None)
    ensures dir ==> PT.TableOk(PT.Blank(TABLE_SIZE))
  {
    PT.BlankReads(ram, TABLE_SIZE);
    HT.AsMapFresh(TABLE_SIZE);
    if dir {
      forall i: nat | i < TABLE_SIZE ensures PT.ChainOk(PT.Blank(TABLE_SIZE)[i]) { }
    }
  }

  /** The tree with nodes added that nothing leads to. */
  function Grown(t: Vtree, xs: seq<Vnode>): Vtree { t.(nodes := t.nodes + xs) }

  lemma GrownOk(t: Vtree, x: Vnode)
    requires VtreeOk(t) && x.mountpoint.None? && (x.link.Some? ==> x.table.None? && x.link.value < |t.nodes|)
    requires x.link.Some? ==> t.nodes[x.link.value].link.None?
    requires x.table.Some? ==> x.table.value == PT.Blank(TABLE_SIZE)
    ensures VtreeOk(Grown(t, [x])) && Unreached(Grown(t, [x]), |t.nodes|)
  {
    var u, n := Grown(t, [x]), |t.nodes|;
    BlankSeen([], true);
    forall i: nat | i < |u.nodes| ensures VnodeOk(u, i) { if i < n { assert VnodeOk(t, i); } }
    forall d: nat, i: nat, j: nat ensures SlotOk(u, d, i, j) && !LeadsTo(u, d, i, j, n) {
      assert SlotOk(t, d, i, j);
      if d < n { assert HasSlot(u, d, i, j) ==> HasSlot(t, d, i, j) && SlotOf(u, d, i, j) == SlotOf(t, d, i, j); }
    }
    forall d: nat, i: nat, j: nat, e: nat, k: nat, l: nat, c: nat | LeadsTo(u, d, i, j, c) && LeadsTo(u, e, k, l, c)
      ensures d == e && i == k && j == l
    {
      assert LeadsTo(t, d, i, j, c) && LeadsTo(t, e, k, l, c);
    }
  }

  lemma GrownView(ram: seq<Byte>, t: Vtree, x: Vnode)
    ensures View(ram, Grown(t, [x])).nodes == View(ram, t).nodes + [Seen(ram, x)]
  {
  }

  /** vfs_create_node, with the name where the caller has it. */
  function AddVnode(ram: seq<Byte>, t: Vtree, p: nat, key: PT.Key, dir: bool): Vtree
    requires p < |t.nodes| && t.nodes[p].table.Some? && |t.nodes[p].table.value| > 0
  {
    SetIn(ram, Grown(t, [Blank(dir)]), p, key, |t.nodes|)
  }

  lemma AddVnodeOk(ram: seq<Byte>, t: Vtree, p: nat, key: PT.Key, dir: bool)
    requires VtreeOk(t) && p < |t.nodes| && t.nodes[p].table.Some? && PT.Spelt(ram, key) != [] && key.Mem?
    ensures |t.nodes[p].table.value| > 0 && VtreeOk(AddVnode(ram, t, p, key, dir))
    ensures View(ram, AddVnode(ram, t, p, key, dir)) == AddNode(View(ram, t), p, PT.Spelt(ram, key), dir)
  {
    assert VnodeOk(t, p);
    var u := Grown(t, [Blank(dir)]);
    GrownOk(t, Blank(dir));
    SetInOk(ram, u, p, key, |t.nodes|);
    SetInView(ram, u, p, key, |t.nodes|);
    GrownView(ram, t, Blank(dir));
    BlankSeen(ram, dir);
  }

  /** The two link nodes of directory n. */
  function WithLinks(t: Vtree, parent: nat, n: nat): Vtree
  {
    Grown(Grown(t, [Vnode(None, None, Some(n))]), [Vnode(None, None, Some(parent))])
  }

  /** create_dot, whose names are constants. */
  function AddDots(ram: seq<Byte>, t: Vtree, parent: nat, n: nat): Vtree
    requires n < |t.nodes| && t.nodes[n].table.Some? && |t.nodes[n].table.value| > 0
  {
    var k := |t.nodes|;
    SetIn(ram, SetIn(ram, WithLinks(t, parent, n), n, PT.Lit(DOT), k), n, PT.Lit(DOTDOT), k + 1)
  }

  lemma WithLinksOk(t: Vtree, parent: nat, n: nat)
    requires VtreeOk(t) && n < |t.nodes| && t.nodes[n].table.Some? && parent < |t.nodes| && t.nodes[parent].table.Some?
    ensures
      var u, k := WithLinks(t, parent, n), |t.nodes|;
      VtreeOk(u) && Unreached(u, k) && Unreached(u, k + 1)
  {
    assert VnodeOk(t, n) && VnodeOk(t, parent);
    var x, y := Vnode(None, None, Some(n)), Vnode(None, None, Some(parent));
    var u, k := Grown(t, [x]), |t.nodes|;
    GrownOk(t, x);
    GrownOk(u, y);
    var w := Grown(u, [y]);
    forall d: nat, i: nat, j: nat ensures !LeadsTo(w, d, i, j, k) { assert !LeadsTo(u, d, i, j, k); }
  }

  lemma AddDotsOk(ram: seq<Byte>, t: Vtree, parent: nat, n: nat)
    requires VtreeOk(t) && n < |t.nodes| && t.nodes[n].table.Some? && parent < |t.nodes| && t.nodes[parent].table.Some?
    ensures |t.nodes[n].table.value| > 0 && VtreeOk(AddDots(ram, t, parent, n))
  {
    assert VnodeOk(t, n);
    var u, k := WithLinks(t, parent, n), |t.nodes|;
    WithLinksOk(t, parent, n);
    SetInOk(ram, u, n, PT.Lit(DOT), k);
    var w := SetIn(ram, u, n, PT.Lit(DOT), k);
    var l := k + 1;
    forall d: nat, i: nat, j: nat ensures !LeadsTo(w, d, i, j, l) {
      SetSlots(ram, u, n, PT.Lit(DOT), k, d, i, j);
      assert !LeadsTo(u, d, i, j, l);
    }
    SetInOk(ram, w, n, PT.Lit(DOTDOT), l);
  }

  lemma LinksView(ram: seq<Byte>, t: Vtree, parent: nat, n: nat)
    ensures View(ram, WithLinks(t, parent, n)).nodes ==
            View(ram, t).nodes + [Node(None, None, Some(n)), Node(None, None, Some(parent))]
  {
    var x := Vnode(None, None, Some(n));
    GrownView(ram, t, x);
    GrownView(ram, Grown(t, [x]), Vnode(None, None, Some(parent)));
  }

  lemma DottedIs(v: Tree, u: Tree, parent: nat, n: nat, k: nat, l: nat, w: Tree)
    requires k == |v.nodes| && l == k + 1 && n < k && v.nodes[n].children.Some? && u.root == v.root
    requires u.nodes == v.nodes + [Node(None, None, Some(n)), Node(None, None, Some(parent))]
    requires w == SetChild(SetChild(u, n, DOT, k), n, DOTDOT, l)
    ensures w == Dotted(v, parent, n)
  {
    assert w.nodes == Dotted(v, parent, n).nodes;
  }

  lemma TwoSets(ram: seq<Byte>, u: Vtree, n: nat, k: nat, l: nat, x: Vtree)
    requires VtreeOk(u) && n < k < |u.nodes| && u.nodes[n].table.Some? && |u.nodes[n].table.value| > 0
    requires Unreached(u, k)
    requires l == k + 1 && x == SetIn(ram, SetIn(ram, u, n, PT.Lit(DOT), k), n, PT.Lit(DOTDOT), l)
    ensures View(ram, x) == SetChild(SetChild(View(ram, u), n, DOT, k), n, DOTDOT, l)
  {
    assert VnodeOk(u, n);
    SetInView(ram, u, n, PT.Lit(DOT), k);
    SetInOk(ram, u, n, PT.Lit(DOT), k);
    var w := SetIn(ram, u, n, PT.Lit(DOT), k);
    assert VnodeOk(w, n);
    SetInView(ram, w, n, PT.Lit(DOTDOT), l);
  }

  lemma AddDotsView(ram: seq<Byte>, t: Vtree, parent: nat, n: nat, x: Vtree)
    requires VtreeOk(t) && n < |t.nodes| && t.nodes[n].table.Some? && parent < |t.nodes| && t.nodes[parent].table.Some?
    requires |t.nodes[n].table.value| > 0 && x == AddDots(ram, t, parent, n)
    ensures View(ram, x) == Dotted(View(ram, t), parent, n)
  {
    var u := WithLinks(t, parent, n);
    WithLinksOk(t, parent, n);
    var k, l := |t.nodes|, |t.nodes| + 1;
    TwoSets(ram, u, n, k, l, x);
    LinksView(ram, t, parent, n);
    DottedIs(View(ram, t), View(ram, u), parent, n, k, l, View(ram, x));
  }

  /** The file system's create and, for a directory, create_dot. */
  function Made(ram: seq<Byte>, t: Vtree, p: nat, key: PT.Key, dir: bool): Vtree
    requires VtreeOk(t) && p < |t.nodes| && t.nodes[p].table.Some? && PT.Spelt(ram, key) != [] && key.Mem?
  {
    AddVnodeOk(ram, t, p, key, dir);
    var u := AddVnode(ram, t, p, key, dir);
    if dir then
      AddDotsOk(ram, u, p, |t.nodes|);
      AddDots(ram, u, p, |t.nodes|)
    else u
  }

  /** With memory as it is, this is the creation on the tree seen. */
  lemma MadeOk(ram: seq<Byte>, t: Vtree, p: nat, key: PT.Key, dir: bool)
    requires VtreeOk(t) && p < |t.nodes| && t.nodes[p].table.Some? && PT.Spelt(ram, key) != [] && key.Mem?
    ensures VtreeOk(Made(ram, t, p, key, dir)) && |t.nodes| < |Made(ram, t, p, key, dir).nodes|
    ensures
      var w, n := AddNode(View(ram, t), p, PT.Spelt(ram, key), dir), |t.nodes|;
      View(ram, Made(ram, t, p, key, dir)) == if dir then CreateDot(w, p, n) else w
  {
    AddVnodeOk(ram, t, p, key, dir);
    if dir {
      var u, n := AddVnode(ram, t, p, key, dir), |t.nodes|;
      AddDotsOk(ram, u, p, n);
      AddDotsView(ram, u, p, n, AddDots(ram, u, p, n));
      CreateDotIs(View(ram, u), p, n);
    }
  }

  // ----- What all keys have in common -----

  ghost predicate AllKeys(t: Vtree, ok: PT.Key -> bool)
  {
    forall d: nat, i: nat, j: nat :: HasSlot(t, d, i, j) ==> ok(SlotOf(t, d, i, j).key)
  }

  ghost predicate Constants(ok: PT.Key -> bool) { forall text :: ok(PT.Lit(text)) }

  lemma SetInKeys(ram: seq<Byte>, t: Vtree, d: nat, key: PT.Key, c: nat, ok: PT.Key -> bool)
    requires AllKeys(t, ok) && d < |t.nodes| && t.nodes[d].table.Some? && |t.nodes[d].table.value| > 0 && ok(key)
    ensures AllKeys(SetIn(ram, t, d, key, c), ok)
  {
    var u := SetIn(ram, t, d, key, c);
    forall e: nat, i: nat, j: nat | HasSlot(u, e, i, j) ensures ok(SlotOf(u, e, i, j).key) {
      SetSlots(ram, t, d, key, c, e, i, j);
      assert HasSlot(t, e, i, j) ==> ok(SlotOf(t, e, i, j).key);
    }
  }

  lemma GrownKeys(t: Vtree, x: Vnode, ok: PT.Key -> bool)
    requires AllKeys(t, ok) && Constants(ok) && (x.table.Some? ==> x.table.value == PT.Blank(TABLE_SIZE))
    ensures AllKeys(Grown(t, [x]), ok)
  {
    var u := Grown(t, [x]);
    forall e: nat, i: nat, j: nat | HasSlot(u, e, i, j) ensures ok(SlotOf(u, e, i, j).key) {
      assert e < |t.nodes| ==> HasSlot(t, e, i, j) && SlotOf(u, e, i, j) == SlotOf(t, e, i, j);
    }
  }

  lemma DotsKeys(ram: seq<Byte>, t: Vtree, parent: nat, n: nat, ok: PT.Key -> bool)
    requires n < |t.nodes| && t.nodes[n].table.Some? && |t.nodes[n].table.value| > 0 && AllKeys(t, ok) && Constants(ok)
    ensures AllKeys(AddDots(ram, t, parent, n), ok)
  {
    var x, k, u := Vnode(None, None, Some(n)), |t.nodes|, WithLinks(t, parent, n);
    GrownKeys(t, x, ok);
    GrownKeys(Grown(t, [x]), Vnode(None, None, Some(parent)), ok);
    SetInKeys(ram, u, n, PT.Lit(DOT), k, ok);
    SetInKeys(ram, SetIn(ram, u, n, PT.Lit(DOT), k), n, PT.Lit(DOTDOT), k + 1, ok);
  }

  lemma MadeKeys(ram: seq<Byte>, t: Vtree, d: nat, key: PT.Key, dir: bool, ok: PT.Key -> bool)
    requires VtreeOk(t) && d < |t.nodes| && t.nodes[d].table.Some? && PT.Spelt(ram, key) != [] && key.Mem?
    requires AllKeys(t, ok) && Constants(ok) && ok(key)
    ensures AllKeys(Made(ram, t, d, key, dir), ok)
  {
    AddVnodeOk(ram, t, d, key, dir);
    GrownKeys(t, Blank(dir), ok);
    SetInKeys(ram, Grown(t, [Blank(dir)]), d, key, |t.nodes|, ok);
    if dir {
      AddDotsOk(ram, AddVnode(ram, t, d, key, dir), d, |t.nodes|);
      DotsKeys(ram, AddVnode(ram, t, d, key, dir), d, |t.nodes|, ok);
    }
  }

  /** Memories in which all keys are the same make the same tree. */
  lemma SameView(ram: seq<Byte>, r: seq<Byte>, t: Vtree)
    requires forall d: nat, i: nat, j: nat :: HasSlot(t, d, i, j) ==>
               PT.Spelt(r, SlotOf(t, d, i, j).key) == PT.Spelt(ram, SlotOf(t, d, i, j).key)
    ensures View(r, t) == View(ram, t)
  {
    forall d: nat | d < |t.nodes| ensures Seen(r, t.nodes[d]) == Seen(ram, t.nodes[d]) {
      if t.nodes[d].table.Some? {
        var b: PT.Table := t.nodes[d].table.value;
        forall i: nat | i < |b| ensures PT.Read(r, b)[i] == PT.Read(ram, b)[i] {
          forall j: nat | j < |b[i]| ensures PT.ReadChain(r, b[i])[j] == PT.ReadChain(ram, b[i])[j] {
            assert HasSlot(t, d, i, j) && SlotOf(t, d, i, j) == b[i][j];
          }
        }
        assert PT.Read(r, b) == PT.Read(ram, b);
      }
    }
    assert View(r, t).nodes == View(ram, t).nodes;
  }

  // ----- When a path is sure of what it finds -----

  /** Every search along the path is sure of its answer. */
  ghost predicate SurePath(ram: seq<Byte>, t: Vtree, open: set<nat>, cur: nat, segs: seq<Text>)
    requires VtreeOk(t) && cur < |t.nodes|
    decreases |segs|
  {
    segs == [] || (t.nodes[cur].table.Some? ==>
      SureStep(ram, t, open, cur, segs[0]) &&
      var c := Child(View(ram, t), cur, segs[0]);
      c.Some? ==> c.value < |t.nodes| && SurePath(ram, t, open, c.value, segs[1..]))
  }

  ghost predicate SureStep(ram: seq<Byte>, t: Vtree, open: set<nat>, d: nat, name: Text)
    requires d < |t.nodes| && t.nodes[d].table.Some?
  {
    |t.nodes[d].table.value| > 0 && PT.Sure(ram, t.nodes[d].table.value, open, name)
  }

  lemma SureChild(ram: seq<Byte>, r: seq<Byte>, t: Vtree, open: set<nat>, d: nat, name: Text)
    requires VtreeOk(t) && d < |t.nodes| && t.nodes[d].table.Some? && name != [] && PT.Outside(ram, r, open)
    requires SureStep(ram, t, open, d, name)
    ensures Child(View(r, t), d, name) == Child(View(ram, t), d, name)
  {
    var b := t.nodes[d].table.value;
    PT.SureStays(ram, r, b, open, name);
    ChildrenAgree(ram, r, t, d, name, b);
  }

  /** Then it finds the same, whatever is written to the open frames. */
  lemma {:induction false} SurePathStays(ram: seq<Byte>, r: seq<Byte>, t: Vtree, open: set<nat>, cur: nat,
                                         segs: seq<Text>)
    requires VtreeOk(t) && cur < |t.nodes| && AllGood(segs) && PT.Outside(ram, r, open)
    requires SurePath(ram, t, open, cur, segs)
    ensures TreeOk(View(ram, t)) && TreeOk(View(r, t))
    ensures Resolve(View(r, t), cur, segs) == Resolve(View(ram, t), cur, segs)
    decreases |segs|
  {
    ViewOk(ram, t);
    ViewOk(r, t);
    if segs != [] {
      assert Good(segs[0]);
      if t.nodes[cur].table.Some? {
        SureChild(ram, r, t, open, cur, segs[0]);
        var c := Child(View(ram, t), cur, segs[0]);
        if c.Some? { SurePathStays(ram, r, t, open, c.value, segs[1..]); }
      }
    }
  }

  /** A node has one way up, whatever memory holds along it. */
  lemma {:induction false} OneWayUp(ram: seq<Byte>, r: seq<Byte>, t: Vtree, c: nat, c': nat, s: seq<Text>,
                                    s': seq<Text>, n: nat)
    requires VtreeOk(t) && c < |t.nodes| && c' < |t.nodes| && |s| == |s'| && TreeOk(View(ram, t)) && TreeOk(View(r, t))
    requires Resolve(View(ram, t), c, s) == Some(n) && Resolve(View(r, t), c', s') == Some(n)
    ensures c == c'
    decreases |s|
  {
    if s != [] {
      var k := |s| - 1;
      ResolveLast(View(ram, t), c, s);
      ResolveLast(View(r, t), c', s');
      var d, d' := Resolve(View(ram, t), c, s[..k]).value, Resolve(View(r, t), c', s'[..k]).value;
      var i, j := ChildSlot(ram, t, d, s[k], n);
      var i', j' := ChildSlot(r, t, d', s'[k], n);
      OneWayUp(ram, r, t, c, c', s[..k], s'[..k], d);
    }
  }

  /** The first segment can be made to find something else, so that the path does. */
  lemma DisturbFirst(ram: seq<Byte>, t: Vtree, open: set<nat>, cur: nat, name: Text, rest: seq<Text>,
                     c: nat) returns (r: seq<Byte>)
    requires VtreeOk(t) && cur < |t.nodes| && Good(name) && TreeOk(View(ram, t)) && t.nodes[cur].table.Some?
    requires Child(View(ram, t), cur, name) == Some(c) && c < |t.nodes| && Resolve(View(ram, t), c, rest).Some?
    requires !SureStep(ram, t, open, cur, name)
    ensures PT.Outside(ram, r, open) && TreeOk(View(r, t))
    ensures
      var c' := Child(View(r, t), cur, name);
      c'.Some? ==> c'.value < |t.nodes| && Resolve(View(r, t), c'.value, rest) != Resolve(View(ram, t), c, rest)
  {
    var b := t.nodes[cur].table.value;
    ChildrenAgree(ram, ram, t, cur, name, b);
    r := PT.Disturb(ram, b, open, name);
    ViewOk(r, t);
    ChildrenAgree(ram, r, t, cur, name, b);
    var c' := Child(View(r, t), cur, name);
    if c'.Some? {
      var i, j := ChildSlot(r, t, cur, name, c'.value);
      if Resolve(View(r, t), c'.value, rest) == Resolve(View(ram, t), c, rest) {
        OneWayUp(ram, r, t, c, c'.value, rest, rest, Resolve(View(ram, t), c, rest).value);
      }
    }
  }

  /** A path that finds something and is not sure of it can be made to find it no more. */
  lemma {:induction false} DisturbPath(ram: seq<Byte>, t: Vtree, open: set<nat>, cur: nat,
                                       segs: seq<Text>) returns (r: seq<Byte>)
    requires VtreeOk(t) && cur < |t.nodes| && AllGood(segs) && TreeOk(View(ram, t))
    requires Resolve(View(ram, t), cur, segs).Some? && !SurePath(ram, t, open, cur, segs)
    ensures PT.Outside(ram, r, open) && TreeOk(View(r, t))
    ensures Resolve(View(r, t), cur, segs) != Resolve(View(ram, t), cur, segs)
    decreases |segs|
  {
    var name, rest := segs[0], segs[1..];
    assert Good(name);
    var c := Child(View(ram, t), cur, name).value;
    var i, j := ChildSlot(ram, t, cur, name, c);
    if SureStep(ram, t, open, cur, name) {
      r := DisturbPath(ram, t, open, c, rest);
      SureChild(ram, r, t, open, cur, name);
    } else {
      r := DisturbFirst(ram, t, open, cur, name, rest, c);
    }
  }

  /** The exact condition for a path that finds a node to go on finding it. */
  lemma {:induction false} PathSureExactly(ram: seq<Byte>, t: Vtree, open: set<nat>, cur: nat, segs: seq<Text>)
    requires VtreeOk(t) && cur < |t.nodes| && AllGood(segs) && TreeOk(View(ram, t))
    requires Resolve(View(ram, t), cur, segs).Some?
    ensures (forall r :: PT.Outside(ram, r, open) ==> Finds(r, t, cur, segs, Resolve(View(ram, t), cur, segs)))
            <==> SurePath(ram, t, open, cur, segs)
  {
    var n := Resolve(View(ram, t), cur, segs);
    if SurePath(ram, t, open, cur, segs) {
      forall r | PT.Outside(ram, r, open) ensures Finds(r, t, cur, segs, n) {
        SurePathStays(ram, r, t, open, cur, segs);
      }
    } else {
      var r := DisturbPath(ram, t, open, cur, segs);
      assert !Finds(r, t, cur, segs, n);
    }
  }

  /** With this memory the path finds n. */
  ghost predicate Finds(ram: seq<Byte>, t: Vtree, cur: nat, segs: seq<Text>, n: Option<nat>)
  {
    cur < |t.nodes| && TreeOk(View(ram, t)) && Resolve(View(ram, t), cur, segs) == n
  }
}
