/** The node tree in place: directories hold hash tables, lookup walks tokens cut from a private copy of the
    path, creation appends nodes and sets table entries. */
module VirtualFileSystem {
  import opened Words
  import opened Strings
  import opened FileTree
  import opened FileCreation
  import HT = HashTable

  /** A node as it stands in memory; a table holds node n as the pointer n + 1. */
  datatype Record = Record(table: Option<seq<seq<HT.Entry>>>, mountpoint: Option<nat>, link: Option<nat>)

  ghost function Seen(x: Record): Node
  {
    Node(if x.table.None? then None else Some(HT.AsMap(x.table.value)), x.mountpoint, x.link)
  }

  ghost function AllSeen(xs: seq<Record>): (r: seq<Node>)
    ensures |r| == |xs| && forall i :: 0 <= i < |xs| ==> r[i] == Seen(xs[i])
  {
    seq(|xs|, i requires 0 <= i < |xs| => Seen(xs[i]))
  }

  ghost predicate TablesOk(xs: seq<Record>)
  {
    forall i :: 0 <= i < |xs| && xs[i].table.Some? ==> HT.Buckets(xs[i].table.value)
  }

  /** The text at o, as a value. */
  method ReadText(m: array<Byte>, o: nat, ghost t: Text) returns (r: Text)
    requires IsText(m[..], o, t)
    ensures r == t
  {
    var n := Strlen(m, o, t);
    r := m[o..o + n];
    assert r == m[..][o..o + n];
  }

  /** A NUL-terminated copy of a text. */
  method CopyOut(t: Text) returns (m: array<Byte>)
    requires CString(t)
    ensures fresh(m) && IsText(m[..], 0, t)
  {
    m := new Byte[|t| + 1](_ => 0);
    for i := 0 to |t|
      invariant m[..i] == t[..i] && m[|t|] == 0
    {
      m[i] := t[i];
    }
    assert m[..][0..|t|] == m[..|t|] == t;
  }

  /** The segments still to do: the one in hand, then the pieces of rest. */
  function Pending(segment: Option<Text>, rest: Option<Text>): seq<Text>
  {
    if segment.None? then [] else [segment.value] + if rest.None? then [] else Split(rest.value)
  }

  class Vfs {
    var nodes: seq<Record>
    var root: nat

    /** The tree of maps that the records stand for. */
    ghost function View(): (v: Tree)
      reads this
      ensures |v.nodes| == |nodes|
    {
      Tree(AllSeen(nodes), root)
    }

    ghost predicate Valid()
      reads this
    {
      TablesOk(nodes) && TreeOk(View())
    }

    constructor ()
      ensures Valid() && View() == Tree([Node(Some(map[]), None, None)], 0)
    {
      nodes, root := [Record(Some(HT.Fresh(TABLE_SIZE)), None, None)], 0;
      new;
      HT.AsMapFresh(TABLE_SIZE);
      assert View().nodes == [Node(Some(map[]), None, None)];
    }

    /** reduce_node, with the nodes it passes. */
    method ReduceNode(n: nat) returns (r: nat, ghost trail: seq<nat>)
      requires Valid() && n < |nodes|
      ensures Trail(View(), trail, n, r) && r == Reduce(View(), n)
      decreases if nodes[n].link.Some? then 1 else 0, |nodes| - n
    {
      ghost var rest;
      assert NodeOk(View(), n);
      if nodes[n].mountpoint.Some? { r, rest := ReduceNode(nodes[n].mountpoint.value); }
      else if nodes[n].link.Some? { r, rest := ReduceNode(nodes[n].link.value); }
      else { r, rest := n, []; }
      trail := [n] + rest;
    }

    /** hashmap_get in directory d. */
    method GetChild(d: nat, name: Text) returns (r: Option<nat>)
      requires TablesOk(nodes) && d < |nodes| && nodes[d].table.Some?
      ensures r == Child(View(), d, name)
    {
      var pointer := HT.Lookup(nodes[d].table.value, name);
      HT.BucketsHeaded(nodes[d].table.value);
      HT.AsMapMirrors(nodes[d].table.value);
      r := if pointer == 0 then None else Some(pointer - 1);
    }

    /** hashmap_set in directory d. */
    method SetEntry(d: nat, name: Text, c: nat)
      requires TablesOk(nodes) && d < |nodes| && nodes[d].table.Some?
      modifies this`nodes
      ensures TablesOk(nodes) && View() == SetChild(old(View()), d, name, c)
      ensures forall i :: 0 <= i < |nodes| ==> (nodes[i].table.Some? <==> old(nodes)[i].table.Some?)
    {
      HT.BucketsHeaded(nodes[d].table.value);
      HT.AsMapSet(nodes[d].table.value, name, c);
      HT.StoredOk(nodes[d].table.value, name, c + 1);
      nodes := nodes[d := nodes[d].(table := Some(HT.Stored(nodes[d].table.value, name, c + 1)))];
      assert View().nodes == SetChild(old(View()), d, name, c).nodes;
    }

    /** The token loop of path_to_node over a private copy of the path's body. */
    method WalkTokens(base: nat, start: nat, body: Text) returns (r: Found)
      requires Valid() && base < |nodes| && CString(body)
      ensures r == Walk(View(), base, start, Split(body))
    {
      var copy := CopyOut(body);
      var tok := new Tokenizer(copy);
      var cur: nat, par: nat := base, start;
      ghost var v := View();
      var segment, rest := Segment(tok, Some(0), Some(body));
      while segment.Some?
        invariant fresh(copy) && fresh(tok) && tok.buf == copy && At(copy[..], tok.cursor, rest) && cur < |nodes|
        invariant View() == v && Walk(v, base, start, Split(body)) == Walk(v, cur, par, Pending(segment, rest))
        decreases |Pending(segment, rest)|
      {
        if nodes[cur].table.None? { return Fault; }
        var next := GetChild(cur, segment.value);
        PendingTail(segment, rest);
        WalkStep(v, cur, par, Pending(segment, rest), next);
        segment, rest := Segment(tok, None, rest);
        if next.Some? {
          cur := next.value;
          if nodes[cur].table.Some? { par := cur; }
          continue;
        }
        if segment.Some? { return Found(None, None); }
        return Found(Some(par), None);
      }
      return Found(Some(par), Some(cur));
    }

    /** The directories a lookup starts from: the caller's, and the one its first segment is sought in. */
    method Starts(parent: Option<nat>, absolute: bool) returns (start: nat, base: nat)
      requires Valid() && (parent.Some? ==> parent.value < |nodes|)
      ensures start == Start(View(), parent) && base == if absolute then Reduce(View(), root) else start
    {
      ghost var trail;
      start, trail := ReduceNode(if parent.None? then root else parent.value);
      base := start;
      if absolute { base, trail := ReduceNode(root); }
    }

    /** path_to_node. */
    method LookUpPath(parent: Option<nat>, path: Text) returns (r: Found)
      requires Valid() && (parent.Some? ==> parent.value < |nodes|) && CString(path)
      ensures r == PathToNode(View(), parent, path)
    {
      if |path| == 0 { return Found(None, None); }
      var start, base := Starts(parent, path[0] == SLASH);
      var index := SkipSlashes(path);
      if index == |path| { return Found(Some(start), Some(base)); }
      var dir := if path[|path| - 1] == SLASH then 1 else 0;
      BodyCString(path, index, |path| - dir);
      ghost var v := View();
      BodyWalks(v, parent, path, base, path[index..|path| - dir]);
      r := WalkTokens(base, start, path[index..|path| - dir]);
      assert View() == v;
    }

    method GetNode(parent: Option<nat>, path: Text) returns (r: Option<nat>)
      requires Valid() && (parent.Some? ==> parent.value < |nodes|) && CString(path)
      requires PathToNode(View(), parent, path) != Fault
      ensures r == PathToNode(View(), parent, path).result
    {
      var f := LookUpPath(parent, path);
      r := f.result;
    }

    /** vfs_create_node. */
    method CreateNode(p: nat, name: Text, dir: bool) returns (n: nat)
      requires TablesOk(nodes) && p < |nodes| && nodes[p].table.Some?
      modifies this`nodes
      ensures TablesOk(nodes) && View() == AddNode(old(View()), p, name, dir) && n == old(|nodes|)
      ensures Gains(old(View()), View(), p, name, n, dir)
    {
      n := |nodes|;
      HT.AsMapFresh(TABLE_SIZE);
      nodes := nodes + [Record(if dir then Some(HT.Fresh(TABLE_SIZE)) else None, None, None)];
      assert View().nodes == old(View()).nodes + [Node(if dir then Some(map[]) else None, None, None)];
      SetEntry(p, name, n);
      AddNodeGains(old(View()), p, name, dir);
    }

    method SetLinkOf(n: nat, target: nat)
      requires TablesOk(nodes) && n < |nodes|
      modifies this`nodes
      ensures TablesOk(nodes) && View() == SetLink(old(View()), n, target)
      ensures forall i :: 0 <= i < |nodes| ==> nodes[i].table == old(nodes)[i].table
    {
      nodes := nodes[n := nodes[n].(link := Some(target))];
      assert View().nodes == SetLink(old(View()), n, target).nodes;
    }

    /** The two link nodes of a directory. */
    method DotNodes(parent: nat, n: nat) returns (dot: nat, dotdot: nat)
      requires TablesOk(nodes) && n < |nodes| && nodes[n].table.Some?
      modifies this`nodes
      ensures TablesOk(nodes) && View() == DotLinks(old(View()), parent, n)
      ensures dot == old(|nodes|) && dotdot == old(|nodes|) + 1
    {
      dot := CreateNode(n, DOT, false);
      assert View().nodes[n].children.Some?;
      dotdot := CreateNode(n, DOT, false);
      SetLinkOf(dot, n);
      SetLinkOf(dotdot, parent);
    }

    /** create_dot. */
    method CreateDots(parent: nat, n: nat)
      requires TablesOk(nodes) && n < |nodes| && nodes[n].table.Some?
      modifies this`nodes
      ensures TablesOk(nodes) && View() == CreateDot(old(View()), parent, n)
      ensures GainsDots(old(View()), View(), parent, n)
    {
      ghost var v := View();
      CreateDotGains(v, parent, n);
      var dot, dotdot := DotNodes(parent, n);
      DotEntries(v, parent, n, dot, dotdot);
      assert View().nodes[n].children.Some?;
      SetEntry(n, DOT, dot);
      SetEntry(n, DOTDOT, dotdot);
    }

    /** vfs_create on the path in s, whose trailing slashes basename overwrites; a fault while walking
        answers None. */
    method VfsCreate(parent: Option<nat>, s: array<Byte>, dir: bool, ghost path: Text) returns (r: Option<nat>)
      requires Valid() && (parent.Some? ==> parent.value < |nodes|) && IsText(s[..], 0, path)
      modifies this`nodes, s
      ensures Valid()
      ensures Answered(old(View()), parent, path, dir, r, View(), old(s[..]), s[..])
    {
      ghost var v := View();
      var text := ReadText(s, 0, path);
      var f := LookUpPath(parent, text);
      if f.Fault? || f.parent.None? || f.result.Some? { return None; }
      if f.parent.value >= |nodes| || nodes[f.parent.value].table.None? { return None; }
      var at := Basename(s, path);
      var name := ReadText(s, at.value, BaseName(path));
      CreateIs(v, parent, path, name, dir, f.parent.value);
      var n := FsCreate(f.parent.value, name, dir);
      r := Some(n);
      assert Trimmed(old(s[..]), s[..], path);
    }

    /** The file system's create and, for a directory, its "." and ".." entries. */
    method FsCreate(p: nat, name: Text, dir: bool) returns (n: nat)
      requires TablesOk(nodes) && p < |nodes| && nodes[p].table.Some?
      modifies this`nodes
      ensures TablesOk(nodes) && n == old(|nodes|)
      ensures View() ==
        if dir then CreateDot(AddNode(old(View()), p, name, dir), p, n)
        else AddNode(old(View()), p, name, dir)
    {
      n := CreateNode(p, name, dir);
      if dir { CreateDots(p, n); }
    }
  }

  /** The text in memory with its trailing slashes overwritten. */
  ghost predicate Trimmed(m: seq<Byte>, m': seq<Byte>, t: Text)
  {
    && t != [] && |m'| == |m|
    && forall k :: 0 <= k < |m| ==> m'[k] == if CutEnd(t) <= k < |t| then 0 else m[k]
  }

  /** What vfs_create answers, leaves of the tree v and leaves of the path's buffer m. */
  ghost predicate Answered(v: Tree, parent: Option<nat>, path: Text, dir: bool, r: Option<nat>, w: Tree,
                           m: seq<Byte>, m': seq<Byte>)
    requires TreeOk(v) && (parent.Some? ==> parent.value < |v.nodes|)
  {
    match Create(v, parent, path, BaseName(path), dir)
    case None => r == None && w == v && m' == m
    case Some(x) => w == x.0 && r == Some(x.1) && Trimmed(m, m', path)
  }

  /** Node r stands behind n: the trail goes on through the mount point where there is one, else through the
      link, and ends where there is neither. */
  ghost predicate Trail(v: Tree, trail: seq<nat>, n: nat, r: nat)
  {
    && trail != [] && trail[0] == n && trail[|trail| - 1] == r
    && (forall i :: 0 <= i < |trail| ==> trail[i] < |v.nodes|)
    && (forall i :: 0 <= i < |trail| - 1 ==> Onward(v.nodes[trail[i]]) == Some(trail[i + 1]))
    && Onward(v.nodes[r]) == None
  }

  function Onward(x: Node): Option<nat> { if x.mountpoint.Some? then x.mountpoint else x.link }

  /** Leading slashes of a path; all of it when there is nothing else. */
  method SkipSlashes(path: Text) returns (index: nat)
    requires path != []
    ensures index == Leading(path)
  {
    index := 0;
    while path[index] == SLASH
      invariant index < |path| && forall i :: 0 <= i < index ==> path[i] == SLASH
      decreases |path| - index
    {
      if index == |path| - 1 { LeadingAll(path); return |path|; }
      index := index + 1;
    }
    LeadingIs(path, index);
  }

  /** The next segment as a value, and what is left behind it. */
  method Segment(tok: Tokenizer, start: Option<nat>, ghost rest: Option<Text>) returns (segment: Option<Text>,
                 ghost left: Option<Text>)
    requires if start.Some? then rest.Some? && IsText(tok.buf[..], start.value, rest.value)
             else At(tok.buf[..], tok.cursor, rest)
    modifies tok`cursor, tok.buf
    ensures segment == if rest.None? then None else Some(Head(rest.value))
    ensures left == (if rest.None? then None else Rest(rest.value)) && At(tok.buf[..], tok.cursor, left)
  {
    var token := tok.Next(start, if rest.Some? then rest.value else []);
    if token.None? { return None, None; }
    CutLeaves(old(tok.buf[..]), token.value, rest.value, tok.buf[..], tok.cursor);
    var t := ReadText(tok.buf, token.value, Head(rest.value));
    segment, left := Some(t), Rest(rest.value);
  }

  lemma PendingTail(segment: Option<Text>, rest: Option<Text>)
    requires segment.Some?
    ensures Pending(segment, rest)[0] == segment.value
    ensures Pending(segment, rest)[1..] == if rest.None? then [] else Pending(Some(Head(rest.value)), Rest(rest.value))
  {
  }

  lemma LeadingAll(path: Text)
    requires forall i :: 0 <= i < |path| ==> path[i] == SLASH
    ensures Leading(path) == |path|
  {
  }

  lemma WalkStep(v: Tree, cur: nat, par: nat, segs: seq<Text>, next: Option<nat>)
    requires TreeOk(v) && cur < |v.nodes| && v.nodes[cur].children.Some? && segs != [] && next == Child(v, cur, segs[0])
    ensures next.Some? ==> next.value < |v.nodes|
    ensures next.Some? ==>
      Walk(v, cur, par, segs) ==
        Walk(v, next.value, if v.nodes[next.value].children.Some? then next.value else par, segs[1..])
    ensures next.None? ==> Walk(v, cur, par, segs) == if |segs| > 1 then Found(None, None) else Found(Some(par), None)
  {
    assert NodeOk(v, cur);
  }

  lemma DotEntries(v: Tree, parent: nat, n: nat, dot: nat, dotdot: nat)
    requires n < |v.nodes| && v.nodes[n].children.Some? && dot == |v.nodes| && dotdot == |v.nodes| + 1
    ensures CreateDot(v, parent, n) == SetChild(SetChild(DotLinks(v, parent, n), n, DOT, dot), n, DOTDOT, dotdot)
  {
  }

  /** What vfs_create makes once the lookup has found a directory and no node. */
  lemma CreateIs(v: Tree, parent: Option<nat>, path: Text, name: Text, dir: bool, p: nat)
    requires TreeOk(v) && (parent.Some? ==> parent.value < |v.nodes|)
    requires PathToNode(v, parent, path) == Found(Some(p), None)
    requires p < |v.nodes| && v.nodes[p].children.Some?
    ensures
      var w := AddNode(v, p, name, dir);
      var u := if dir then CreateDot(w, p, |v.nodes|) else w;
      Create(v, parent, path, name, dir) == Some((u, |v.nodes|)) && TreeOk(u)
  {
    CreateOk(v, parent, path, name, dir);
  }

  lemma BodyWalks(v: Tree, parent: Option<nat>, path: Text, base: nat, body: Text)
    requires TreeOk(v) && (parent.Some? ==> parent.value < |v.nodes|) && Leading(path) < |path| && body == Body(path)
    requires base == if path[0] == SLASH then Reduce(v, v.root) else Start(v, parent)
    ensures PathToNode(v, parent, path) == Walk(v, base, Start(v, parent), Split(body))
  {
  }

  lemma BodyCString(path: Text, lo: nat, hi: nat)
    requires CString(path) && lo <= hi <= |path|
    ensures CString(path[lo..hi])
  {
  }
}
