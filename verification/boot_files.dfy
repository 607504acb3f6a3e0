/** From the boot archive to the file tree: every file and directory member becomes a node that its path
    finds, and every file reads back as the member's data. */
module BootFiles {
  import opened Words
  import opened Strings
  import opened FileTree
  import opened FileCreation
  import opened BootArchive
  import TF = TempFiles

  const TYPE_AT := 156
  const NORMAL: Byte := 48
  const DIRECTORY: Byte := 53

  // ----- What the loop reads out of a member -----

  /** What the loop installs: a path, a kind and, for a file, contents. */
  datatype Item = Item(path: Text, dir: bool, data: seq<Byte>)

  function UpToNul(s: seq<Byte>): Text
    decreases |s|
  {
    if s == [] || s[0] == 0 then [] else [s[0]] + UpToNul(s[1..])
  }

  /** The switch on the type flag, over the bytes of a member; None for the types it passes over. */
  function ItemOf(image: seq<Byte>): Option<Item>
    requires |image| >= BLOCK && BLOCK + SizeAt(image, 0) <= |image|
  {
    var path := UpToNul(image);
    if image[TYPE_AT] == NORMAL then Some(Item(path, false, image[BLOCK..BLOCK + SizeAt(image, 0)]))
    else if image[TYPE_AT] == DIRECTORY then Some(Item(path, true, []))
    else None
  }

  /** The member was archived from this item: path with its NUL, type flag, contents. */
  ghost predicate ArchivedFrom(m: Member, it: Item)
  {
    && MemberOk(m) && CString(it.path) && |it.path| < 100 && m.image[..|it.path| + 1] == it.path + [0]
    && if it.dir then m.image[TYPE_AT] == DIRECTORY && it.data == []
       else m.image[TYPE_AT] == NORMAL && m.image[BLOCK..BLOCK + m.size] == it.data
  }

  lemma {:induction false} NulEnds(t: Text, rest: seq<Byte>)
    requires CString(t) && rest != [] && rest[0] == 0
    ensures UpToNul(t + rest) == t
    decreases |t|
  {
    if t == [] { assert t + rest == rest; }
    else {
      assert (t + rest)[1..] == t[1..] + rest;
      NulEnds(t[1..], rest);
    }
  }

  lemma MemberSize(m: Member)
    requires MemberOk(m)
    ensures |m.image| >= BLOCK && SizeAt(m.image, 0) == m.size && BLOCK + m.size <= |m.image|
  {
    SizeRead(m);
  }

  /** The loop reads back the item a member was archived from. */
  lemma ItemRoundTrip(m: Member, it: Item)
    requires ArchivedFrom(m, it)
    ensures |m.image| >= BLOCK && BLOCK + SizeAt(m.image, 0) <= |m.image| && ItemOf(m.image) == Some(it)
  {
    MemberSize(m);
    var n := |it.path|;
    assert m.image[..n + 1][n] == 0;
    assert m.image == it.path + m.image[n..];
    NulEnds(it.path, m.image[n..]);
  }

  // ----- Paths -----

  /** A path of ordinary segments only. */
  predicate Ordinary(path: Text)
  {
    Leading(path) < |path| && AllGood(Split(Body(path)))
  }

  function Segs(path: Text): seq<Text>
    requires Ordinary(path)
  {
    Split(Body(path))
  }

  function Trailing(path: Text): nat { if path != [] && path[|path| - 1] == SLASH then 1 else 0 }

  lemma Rebuilt(path: Text, k: nat, e: nat, j: Text)
    requires k + |j| + e == |path| && j == path[k..k + |j|]
    requires (forall i :: 0 <= i < k ==> path[i] == SLASH) && (forall i :: k + |j| <= i < |path| ==> path[i] == SLASH)
    ensures path == Slashes(k) + j + Slashes(e)
  {
    assert path[..k] == Slashes(k) && path[k + |j|..] == Slashes(e);
  }

  lemma OrdinaryPath(path: Text)
    requires Ordinary(path)
    ensures PathOf(Segs(path), Leading(path), Trailing(path), path)
  {
    var j := Body(path);
    Rebuilt(path, Leading(path), Trailing(path), j);
    JoinSplit(j);
  }

  lemma NameIsLast(segs: seq<Text>, k: nat, e: nat, path: Text)
    requires PathOf(segs, k, e, path)
    ensures BaseName(path) == segs[|segs| - 1]
  {
    BaseNameJoined(segs, k, e, path);
  }

  /** The path taken apart: the lookup's view of it and basename's agree. */
  lemma PathParts(path: Text) returns (segs: seq<Text>, k: nat, e: nat)
    requires Ordinary(path)
    ensures PathOf(segs, k, e, path) && segs == Segs(path) && BaseName(path) == segs[|segs| - 1]
  {
    segs, k, e := Segs(path), Leading(path), Trailing(path);
    OrdinaryPath(path);
    NameIsLast(segs, k, e, path);
  }

  // ----- Installing -----

  /** The tree and the contents of its regular files. */
  datatype Fs = Fs(tree: Tree, files: map<nat, TF.File>)

  /** File contents are kept only for nodes that exist. */
  ghost predicate FsOk(fs: Fs) { TreeOk(fs.tree) && forall n :: n in fs.files ==> n < |fs.tree.nodes| }

  /** One item: vfs_create from the root and, for a file, the write of its data; junk is what memory a
      reallocation finds behind the first block. None is a failed assertion. */
  function Install(fs: Fs, it: Item, junk: seq<Byte>): Option<Fs>
    requires TreeOk(fs.tree) && TF.Room(TF.Created(), |it.data|, 0, junk)
  {
    match Create(fs.tree, Some(fs.tree.root), it.path, BaseName(it.path), it.dir)
    case None => None
    case Some(x) =>
      Some(Fs(x.0, if it.dir then fs.files else fs.files[x.1 := TF.Write(TF.Created(), it.data, 0, junk)]))
  }

  /** Where all the paths start. */
  function Top(fs: Fs): nat
    requires TreeOk(fs.tree)
  {
    Reduce(fs.tree, fs.tree.root)
  }

  /** Node n holds the item: a directory, or a file with these contents. */
  ghost predicate Holds(fs: Fs, n: nat, it: Item)
  {
    && n < |fs.tree.nodes| && (fs.tree.nodes[n].children.Some? <==> it.dir)
    && (!it.dir ==> && n in fs.files && TF.FileOk(fs.files[n]) && |it.data| <= fs.files[n].size
                    && TF.Read(fs.files[n], |it.data|, 0) == Some(it.data))
  }

  /** The item is in place: its path finds a node that holds it. */
  ghost predicate InstalledIn(fs: Fs, it: Item)
  {
    && TreeOk(fs.tree) && Ordinary(it.path)
    && var r := Resolve(fs.tree, Top(fs), Segs(it.path)); r.Some? && Holds(fs, r.value, it)
  }

  /** A file just written reads back, whatever its length. */
  lemma FreshReads(data: seq<Byte>, junk: seq<Byte>)
    requires TF.Room(TF.Created(), |data|, 0, junk)
    ensures
      var f := TF.Write(TF.Created(), data, 0, junk);
      TF.FileOk(f) && |data| <= f.size && TF.Read(f, |data|, 0) == Some(data)
  {
    var f := TF.Write(TF.Created(), data, 0, junk);
    TF.SizeCoversExactly(TF.Created(), data, 0, junk);
    forall i | 0 <= i < |data| ensures f.data[i] == data[i] { TF.WriteBytes(TF.Created(), data, 0, junk, i); }
  }

  /** Old nodes stay directories or files, and the new node n is what was asked for. */
  ghost predicate KindsKept(v: Tree, w: Tree, n: nat, dir: bool)
  {
    && |v.nodes| == n < |w.nodes| && w.root == v.root && (w.nodes[n].children.Some? <==> dir)
    && forall i: nat :: i < n ==> (w.nodes[i].children.Some? <==> v.nodes[i].children.Some?)
  }

  lemma CreateKinds(v: Tree, parent: Option<nat>, path: Text, name: Text, dir: bool, w: Tree, n: nat)
    requires TreeOk(v) && (parent.Some? ==> parent.value < |v.nodes|)
    requires Create(v, parent, path, name, dir) == Some((w, n))
    ensures KindsKept(v, w, n, dir)
  {
    var p := PathToNode(v, parent, path).parent.value;
    if dir { CreateDotIs(AddNode(v, p, name, dir), p, n); }
  }

  /** The path was free, and the place paths start from is as before. */
  lemma {:induction false} InstallBase(v: Tree, segs: seq<Text>, k: nat, e: nat, it: Item, w: Tree, n: nat)
    requires TreeOk(v) && PathOf(segs, k, e, it.path)
    requires Create(v, Some(v.root), it.path, segs[|segs| - 1], it.dir) == Some((w, n))
    ensures TreeOk(w) && w.root == v.root < |w.nodes| && Reduce(w, w.root) == Reduce(v, v.root)
    ensures Resolve(v, Reduce(v, v.root), segs) == None
  {
    var p := CreateEnters(v, Some(v.root), segs, k, e, it.path, it.dir, w, n);
    ReduceSame(v, w, v.root);
  }

  /** Every ordinary path, after a create from the root. */
  lemma {:induction false} InstallFinds(v: Tree, segs: seq<Text>, k: nat, e: nat, it: Item, w: Tree, n: nat,
                                        s: seq<Text>)
    requires TreeOk(v) && PathOf(segs, k, e, it.path) && AllGood(s)
    requires Create(v, Some(v.root), it.path, segs[|segs| - 1], it.dir) == Some((w, n))
    ensures TreeOk(w) && w.root < |w.nodes|
    ensures Resolve(w, Reduce(w, w.root), s) == Expected(v, Reduce(v, v.root), segs, n, s)
  {
    InstallBase(v, segs, k, e, it, w, n);
    CreateThenLookup(v, Some(v.root), segs, k, e, it.path, it.dir, w, n, s);
  }

  /** What a successful step does to the tree. */
  lemma InstallTree(v: Tree, it: Item, w: Tree, n: nat, s: seq<Text>)
    requires TreeOk(v) && Ordinary(it.path)
    requires Create(v, Some(v.root), it.path, BaseName(it.path), it.dir) == Some((w, n)) && AllGood(s)
    ensures TreeOk(w) && KindsKept(v, w, n, it.dir)
    ensures Resolve(v, Reduce(v, v.root), Segs(it.path)) == None
    ensures Resolve(w, Reduce(w, w.root), s) == Expected(v, Reduce(v, v.root), Segs(it.path), n, s)
  {
    var segs, k, e := PathParts(it.path);
    CreateKinds(v, Some(v.root), it.path, BaseName(it.path), it.dir, w, n);
    InstallBase(v, segs, k, e, it, w, n);
    InstallFinds(v, segs, k, e, it, w, n, s);
  }

  lemma InstallPlaces(fs: Fs, it: Item, junk: seq<Byte>, gs: Fs)
    requires FsOk(fs) && Ordinary(it.path) && TF.Room(TF.Created(), |it.data|, 0, junk)
    requires Install(fs, it, junk) == Some(gs)
    ensures FsOk(gs) && InstalledIn(gs, it)
  {
    var (w, n) := Create(fs.tree, Some(fs.tree.root), it.path, BaseName(it.path), it.dir).value;
    InstallTree(fs.tree, it, w, n, Segs(it.path));
    FreshReads(it.data, junk);
  }

  /** A path that finds something does not pass through one that finds nothing. */
  lemma PrefixFound(v: Tree, base: nat, a: seq<Text>, s: seq<Text>)
    requires TreeOk(v) && base < |v.nodes| && a <= s && Resolve(v, base, s).Some?
    ensures Resolve(v, base, a).Some?
  {
    assert s == a + s[|a|..];
    ResolveSplit(v, base, a, s[|a|..]);
  }

  /** Installing one item leaves the others in place. */
  lemma InstallKeeps(fs: Fs, it: Item, junk: seq<Byte>, gs: Fs, other: Item)
    requires FsOk(fs) && Ordinary(it.path) && TF.Room(TF.Created(), |it.data|, 0, junk)
    requires Install(fs, it, junk) == Some(gs)
    requires InstalledIn(fs, other)
    ensures InstalledIn(gs, other)
  {
    var (w, n) := Create(fs.tree, Some(fs.tree.root), it.path, BaseName(it.path), it.dir).value;
    InstallTree(fs.tree, it, w, n, Segs(other.path));
    if Segs(it.path) <= Segs(other.path) { PrefixFound(fs.tree, Top(fs), Segs(it.path), Segs(other.path)); }
  }

  // ----- The whole archive -----

  /** A member's bytes, and the memory its file's reallocation finds. */
  datatype Entry = Entry(image: seq<Byte>, junk: seq<Byte>)

  predicate EntryOk(x: Entry)
  {
    && |x.image| >= BLOCK && BLOCK + SizeAt(x.image, 0) <= |x.image|
    && (ItemOf(x.image).Some? ==> TF.Room(TF.Created(), |ItemOf(x.image).value.data|, 0, x.junk))
  }

  /** The loop's body, but for freeing. */
  function Step(fs: Fs, x: Entry): Option<Fs>
    requires TreeOk(fs.tree) && EntryOk(x)
  {
    match ItemOf(x.image)
    case None => Some(fs)
    case Some(it) => Install(fs, it, x.junk)
  }

  lemma StepOk(fs: Fs, x: Entry, gs: Fs)
    requires FsOk(fs) && EntryOk(x) && Step(fs, x) == Some(gs)
    ensures FsOk(gs)
  {
    if ItemOf(x.image).Some? {
      var it := ItemOf(x.image).value;
      var (w, n) := Create(fs.tree, Some(fs.tree.root), it.path, BaseName(it.path), it.dir).value;
      CreateOk(fs.tree, Some(fs.tree.root), it.path, BaseName(it.path), it.dir);
      CreateKinds(fs.tree, Some(fs.tree.root), it.path, BaseName(it.path), it.dir, w, n);
    }
  }

  function InstallAll(fs: Fs, xs: seq<Entry>): Option<Fs>
    requires FsOk(fs) && forall i :: 0 <= i < |xs| ==> EntryOk(xs[i])
    decreases |xs|
  {
    if xs == [] then Some(fs)
    else
      match Step(fs, xs[0])
      case None => None
      case Some(gs) => StepOk(fs, xs[0], gs); InstallAll(gs, xs[1..])
  }

  /** All paths that are installed are ordinary ones. */
  predicate Proper(x: Entry) { EntryOk(x) && (ItemOf(x.image).Some? ==> Ordinary(ItemOf(x.image).value.path)) }

  ghost predicate AllProper(xs: seq<Entry>) { forall i :: 0 <= i < |xs| ==> Proper(xs[i]) }

  lemma {:induction false} AllKeep(fs: Fs, xs: seq<Entry>, other: Item)
    requires FsOk(fs) && AllProper(xs) && InstallAll(fs, xs).Some? && InstalledIn(fs, other)
    ensures InstalledIn(InstallAll(fs, xs).value, other)
    decreases |xs|
  {
    if xs != [] {
      var gs := Step(fs, xs[0]).value;
      StepOk(fs, xs[0], gs);
      if ItemOf(xs[0].image).Some? { InstallKeeps(fs, ItemOf(xs[0].image).value, xs[0].junk, gs, other); }
      AllKeep(gs, xs[1..], other);
    }
  }

  /** After all the entries: every item's path finds a node that holds it. */
  lemma {:induction false} AllInstalled(fs: Fs, xs: seq<Entry>, i: nat)
    requires FsOk(fs) && AllProper(xs) && InstallAll(fs, xs).Some? && i < |xs| && ItemOf(xs[i].image).Some?
    ensures InstalledIn(InstallAll(fs, xs).value, ItemOf(xs[i].image).value)
    decreases |xs|
  {
    var gs := Step(fs, xs[0]).value;
    StepOk(fs, xs[0], gs);
    if i == 0 {
      var it := ItemOf(xs[0].image).value;
      InstallPlaces(fs, it, xs[0].junk, gs);
      AllKeep(gs, xs[1..], it);
    } else {
      AllInstalled(gs, xs[1..], i - 1);
    }
  }
}
