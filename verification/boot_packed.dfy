/** Archives as they are written, and boots from them: every list of files and directories makes an archive that
    the walk reads back, and the shortest lists for which a boot goes wrong. */
module BootPacked {
  import opened Words
  import opened FrameAllocator
  import opened Strings
  import opened FileTree
  import opened FileCreation
  import opened BootArchive
  import opened BootFiles
  import opened BootTree
  import opened KeyedTree
  import opened BootKeys
  import opened BootExact
  import opened BootDisturb
  import opened BootInstall
  import opened BootFirm
  import opened Runs
  import AR = ArchiveReclaim
  import HT = HashTable
  import PT = PointerTable
  import TF = TempFiles

  const DIGITS := 11

  // ----- Writing an archive -----

  /** What a ustar header has room for. */
  predicate Packable(it: Item)
  {
    && CString(it.path) && |it.path| < 100 && Ordinary(it.path) && |it.data| < Power8(DIGITS)
    && (it.dir ==> it.data == [])
  }

  predicate AllPackable(its: seq<Item>) { forall i :: 0 <= i < |its| ==> Packable(its[i]) }

  function Header(it: Item): (h: seq<Byte>)
    requires |it.path| < 100
    ensures |h| == BLOCK
  {
    it.path + Zeros(SIZE_AT - |it.path|) + Octal(|it.data|, DIGITS) + Zeros(TYPE_AT - SIZE_AT - DIGITS) +
    [if it.dir then DIRECTORY else NORMAL] + Zeros(MAGIC_AT - TYPE_AT - 1) + USTAR + Zeros(BLOCK - MAGIC_AT - 5)
  }

  function Packed(it: Item): Member
    requires Packable(it)
  {
    Member(Header(it) + it.data + Zeros(AlignUp(|it.data|, BLOCK) - |it.data|), |it.data|, DIGITS)
  }

  lemma HeaderParts(it: Item, h: seq<Byte>)
    requires |it.path| < 100 && h == Header(it)
    ensures h[..|it.path| + 1] == it.path + [0] && h[SIZE_AT..SIZE_AT + DIGITS + 1] == Octal(|it.data|, DIGITS) + [0]
    ensures h[TYPE_AT] == (if it.dir then DIRECTORY else NORMAL) && h[MAGIC_AT..MAGIC_AT + 5] == USTAR
  {
  }

  /** The member is what the item is archived as. */
  lemma PackedFrom(it: Item)
    requires Packable(it)
    ensures ArchivedFrom(Packed(it), it)
  {
    var m, h := Packed(it), Header(it);
    HeaderParts(it, h);
    assert m.image[..BLOCK] == h;
    assert m.image[..|it.path| + 1] == h[..|it.path| + 1];
    assert m.image[SIZE_AT..SIZE_AT + DIGITS + 1] == h[SIZE_AT..SIZE_AT + DIGITS + 1];
    assert m.image[MAGIC_AT..MAGIC_AT + 5] == h[MAGIC_AT..MAGIC_AT + 5];
    assert m.image[BLOCK..BLOCK + m.size] == it.data;
  }

  // ----- Booting from it -----

  function PackedAll(its: seq<Item>): (ms: seq<Member>)
    requires AllPackable(its)
    ensures |ms| == |its| && forall i :: 0 <= i < |its| ==> ms[i] == Packed(its[i])
  {
    seq(|its|, i requires 0 <= i < |its| => Packed(its[i]))
  }

  /** Memory that happens to be zero beyond the files written. */
  function Slack(its: seq<Item>): (junks: seq<seq<Byte>>)
    ensures |junks| == |its| && forall i :: 0 <= i < |its| ==> TF.Room(TF.Created(), |its[i].data|, 0, junks[i])
  {
    seq(|its|, i requires 0 <= i < |its| => Zeros(TF.LastPage(|its[i].data|, 0) * FRAME))
  }

  /** The archive at the second frame, its frames in use, in a memory of so many frames. */
  function Loaded(ms: seq<Member>, limit: nat): AR.Boot
  {
    var a := Archive(ms, Zeros(BLOCK));
    AR.Boot(FRAME, Zeros(FRAME) + a, Run(1, (|a| + FRAME - 1) / FRAME), {}, limit, [])
  }

  lemma {:induction false} ArchiveLong(ms: seq<Member>, tail: seq<Byte>)
    ensures |Archive(ms, tail)| >= |tail|
    decreases |ms|
  {
    if ms != [] { ArchiveLong(ms[1..], tail); }
  }

  lemma LoadedBegins(ms: seq<Member>, limit: nat)
    requires forall i :: 0 <= i < |ms| ==> MemberOk(ms[i])
    ensures AR.Begins(Loaded(ms, limit), ms, Zeros(BLOCK))
  {
    var b, a := Loaded(ms, limit), Archive(ms, Zeros(BLOCK));
    assert Zeros(BLOCK)[MAGIC_AT..MAGIC_AT + 5][0] == 0;
    assert b.ram[FRAME..FRAME + |a|] == a;
    forall f: nat | AR.Unread(b.p, b.p + |a|, f) ensures f in b.used { FrameCovered(|a|, f); }
  }

  lemma FrameCovered(n: nat, f: nat)
    requires f * FRAME < FRAME + n && FRAME < (f + 1) * FRAME
    ensures 1 <= f < 1 + (n + FRAME - 1) / FRAME
  {
  }

  /** Every list of items that fit makes an archive that a boot can walk. */
  lemma PackedReady(its: seq<Item>, limit: nat)
    requires AllPackable(its)
    ensures Ready(Loaded(PackedAll(its), limit), PackedAll(its), Zeros(BLOCK), Slack(its))
    ensures forall i :: 0 <= i < |its| ==> ArchivedFrom(PackedAll(its)[i], its[i])
  {
    var ms, junks := PackedAll(its), Slack(its);
    forall i | 0 <= i < |its| ensures ArchivedFrom(ms[i], its[i]) && Proper(Entry(ms[i].image, junks[i])) {
      PackedFrom(its[i]);
      ItemRoundTrip(ms[i], its[i]);
    }
    LoadedBegins(ms, limit);
  }

  // ----- Archives out of order -----

  function EntriesFor(its: seq<Item>): (xs: seq<Entry>)
    requires AllPackable(its)
    ensures |xs| == |its|
  {
    Listed(PackedAll(its), Slack(its))
  }

  lemma EntriesName(its: seq<Item>, i: nat)
    requires AllPackable(its) && i < |its|
    ensures Proper(EntriesFor(its)[i]) && ItemOf(EntriesFor(its)[i].image) == Some(its[i])
    ensures Names(EntriesFor(its)[i], Segs(its[i].path))
  {
    PackedReady(its, 0);
    ItemRoundTrip(PackedAll(its)[i], its[i]);
  }

  lemma EntriesProper(its: seq<Item>)
    requires AllPackable(its)
    ensures AllProper(EntriesFor(its))
  {
    forall i | 0 <= i < |its| ensures Proper(EntriesFor(its)[i]) { EntriesName(its, i); }
  }

  /** A boot from the archive, left alone, fails an assertion exactly when the items are out of order. */
  lemma {:induction false} PackedBoots(its: seq<Item>, limit: nat, i: nat)
    requires AllPackable(its) && i < |its|
    ensures
      var ms, b := PackedAll(its), Loaded(PackedAll(its), limit);
      var q := QuietBoot(b, ms, Zeros(BLOCK), Slack(its))[|its|];
      && AllProper(EntriesFor(its)) && (q.halted <==> !Ordered([], EntriesFor(its)))
      && (!q.halted ==> InstalledIn(FsOf(q), its[i]))
  {
    var ms, b, junks, tail := PackedAll(its), Loaded(PackedAll(its), limit), Slack(its), Zeros(BLOCK);
    PackedReady(its, limit);
    var w, qs := PlanOf(b, ms, tail, junks), QuietBoot(b, ms, tail, junks);
    BootInstalls(b, ms, tail, junks, w, EntriesFor(its), qs, i, its[i]);
  }

  lemma SameNameDisorders(xs: seq<Entry>, s: seq<Text>)
    requires |xs| == 2 && AllProper(xs) && Names(xs[0], s) && Names(xs[1], s)
    ensures !Ordered([], xs)
  {
    var done := [] + [xs[0]];
    assert Names(done[0], s) && Named(done, s);
    assert xs[1..][0] == xs[1];
  }

  lemma NoParentDisorders(xs: seq<Entry>, s: seq<Text>)
    requires xs != [] && AllProper(xs) && Names(xs[0], s) && |s| > 1
    ensures !Ordered([], xs)
  {
  }

  /** Two members of one path: the second create fails. */
  lemma {:induction false} TwiceFails(it: Item, again: Item, limit: nat, its: seq<Item>)
    requires Packable(it) && Packable(again) && Segs(again.path) == Segs(it.path) && its == [it, again]
    ensures AllProper(EntriesFor(its)) && !Ordered([], EntriesFor(its))
    ensures QuietBoot(Loaded(PackedAll(its), limit), PackedAll(its), Zeros(BLOCK), Slack(its))[2].halted
  {
    EntriesProper(its);
    EntriesName(its, 0);
    EntriesName(its, 1);
    SameNameDisorders(EntriesFor(its), Segs(it.path));
    PackedBoots(its, limit, 0);
  }

  /** A file before the directory it is in: the first create fails. */
  lemma {:induction false} OrphanFails(it: Item, dir: Item, limit: nat, its: seq<Item>)
    requires Packable(it) && Packable(dir) && dir.dir && |Segs(it.path)| > 1 && its == [it, dir]
    requires Segs(dir.path) == Segs(it.path)[..|Segs(it.path)| - 1]
    ensures AllProper(EntriesFor(its)) && !Ordered([], EntriesFor(its))
    ensures QuietBoot(Loaded(PackedAll(its), limit), PackedAll(its), Zeros(BLOCK), Slack(its))[2].halted
  {
    EntriesProper(its);
    EntriesName(its, 0);
    NoParentDisorders(EntriesFor(its), Segs(it.path));
    PackedBoots(its, limit, 0);
  }

  // ----- A name overwritten -----

  /** The shortest file whose header's frame is handed back. */
  const LONG: Item := Item([97], false, Zeros(3584))

  lemma LongPackable()
    ensures Packable(LONG) && Segs([97]) == [[97]]
  {
    Power8Small(DIGITS);
    assert Power8(DIGITS) == 0x2_0000_0000;
    assert Leading([97]) == 0 && Body([97]) == [97];
    assert Head([97]) == [97] && Split([97]) == [[97]];
  }

  ghost function Only(k: PT.Key): PT.Key -> bool { (x: PT.Key) => x.Mem? ==> x == k }

  lemma OnlyKey(t: Vtree, d: nat, i: nat, j: nat, k: PT.Key, r: seq<Byte>)
    requires VtreeOk(t) && AllKeys(t, Only(k)) && HasSlot(t, d, i, j) && Good(PT.Spelt(r, SlotOf(t, d, i, j).key))
    ensures SlotOf(t, d, i, j).key == k
  {
    assert SlotOk(t, d, i, j) && Only(k)(SlotOf(t, d, i, j).key);
  }

  /** A tree whose one name in memory reads otherwise has no such entry. */
  lemma OtherwiseMisses(r: seq<Byte>, t: Vtree, cur: nat, k: PT.Key, name: Text)
    requires VtreeOk(t) && AllKeys(t, Only(k)) && cur < |t.nodes| && Good(name) && PT.Spelt(r, k) != name
    ensures Child(View(r, t), cur, name) == None
  {
    var c := Child(View(r, t), cur, name);
    if c.Some? {
      var i, j := ChildSlot(r, t, cur, name, c.value);
      OnlyKey(t, cur, i, j, k, r);
    }
  }

  /** The boot with that file, in a memory of three frames. */
  function LongBoot(): AR.Boot
  {
    LongPackable();
    Loaded(PackedAll([LONG]), 3)
  }

  lemma LongOrdered(xs: seq<Entry>)
    requires Packable(LONG) && xs == EntriesFor([LONG])
    ensures AllProper(xs) && Ordered([], xs)
  {
    LongPackable();
    EntriesProper([LONG]);
    EntriesName([LONG], 0);
  }

  lemma LongInOrder(b: AR.Boot, w: Plan, qs: seq<Sys>, ms: seq<Member>)
    requires Packable(LONG) && b == LongBoot() && ms == PackedAll([LONG])
    requires w == PlanOf(b, ms, Zeros(BLOCK), Slack([LONG])) && qs == QuietBoot(b, ms, Zeros(BLOCK), Slack([LONG]))
    ensures Ready(b, ms, Zeros(BLOCK), Slack([LONG])) && QuietRun(qs, w) && qs[0] == AtStart(b) && |w.sizes| == 1
    ensures ProperAt(w, 0) && ItemOf(EntryAt(w, 0).image) == Some(LONG)
  {
    PackedReady([LONG], 3);
    LongOrdered(EntriesFor([LONG]));
    QuietInOrder(b, ms, Zeros(BLOCK), Slack([LONG]), w, EntriesFor([LONG]), qs);
    PlanEntry(b, ms, Zeros(BLOCK), Slack([LONG]), w, 0);
    EntriesName([LONG], 0);
  }

  /** After its one turn the first frame of the archive is free... */
  lemma {:induction false} LongFrees(b: AR.Boot, w: Plan, qs: seq<Sys>)
    requires QuietRun(qs, w) && qs[0] == AtStart(b) && |w.sizes| == 1 && w.ps[0] == FRAME && w.sizes[0] == 3584
    requires ProperAt(w, 0) && ItemOf(EntryAt(w, 0).image) == Some(LONG) && b.used == {1, 2} && b.held == {}
    ensures qs[1].boot.used == {2} && qs[1].boot.held == {} && qs[1].boot.limit == b.limit && FRAME < |qs[1].boot.ram|
  {
    assert QuietTurn(qs, w, 0);
    var d := PlacedBy(qs[0], w, 0, LONG);
    CurrentIs(qs[0], w, 0);
    LongFreed(b.used, Freed(FRAME, 3584));
  }

  lemma LongFreed(used: set<nat>, freed: set<nat>)
    requires used == {1, 2} && freed == Freed(FRAME, 3584)
    ensures used - freed == {2}
  {
    assert freed == {1};
  }

  lemma LongKeyOf()
    ensures KeyOf(FRAME, LONG.path) == PT.Mem(FRAME, 1)
  {
  }

  /** ...and it holds the one name. */
  lemma {:induction false} LongKey(b: AR.Boot, w: Plan, qs: seq<Sys>, key: PT.Key)
    requires QuietRun(qs, w) && qs[0] == AtStart(b) && |w.sizes| == 1 && w.ps[0] == FRAME
    requires ProperAt(w, 0) && ItemOf(EntryAt(w, 0).image) == Some(LONG) && key == PT.Mem(FRAME, 1)
    ensures AllKeys(qs[1].tree, Only(key))
  {
    assert QuietTurn(qs, w, 0);
    var d := PlacedBy(qs[0], w, 0, LONG);
    LongKeyOf();
    FirstTreeKeys(b.ram, Only(key));
    MadeKeys(qs[0].boot.ram, qs[0].tree, d, key, LONG.dir, Only(key));
  }

  /** Somebody takes that frame and writes to its first byte. */
  lemma TakenAndWritten(b: AR.Boot, v: Byte, ts: seq<AR.Turn>)
    requires b.used == {2} && b.held == {} && b.limit == 3 && FRAME < |b.ram| && ts == [AR.Take(1), AR.Store(FRAME, v)]
    ensures AR.Advances(ts) == 0 && AR.AllTurned(b, ts).ram == b.ram[FRAME := v]
  {
    assert FreeRun({2}, 3, 1, 1);
    var c := AR.Turned(b, ts[0]);
    assert FirstFit({2}, 3, 1) == Some(1);
    assert 1 in Run(1, 1);
    assert 1 in c.held && c.ram == b.ram;
    var us := ts[1..];
    assert us == [AR.Store(FRAME, v)] && us[1..] == [];
    OnlyTurn(c, us[0]);
  }

  lemma OnlyTurn(b: AR.Boot, t: AR.Turn)
    ensures AR.AllTurned(b, [t]) == AR.Turned(b, t) && AR.Advances([t]) == if t.Advance? then 1 else 0
  {
    assert [t][1..] == [];
    assert AR.AllTurned(AR.Turned(b, t), []) == AR.Turned(b, t);
  }

  /** A boot that loses a file: its name stands in the frame that the walk hands back, somebody takes that frame
      and writes to it, and the path no longer finds the file, although nothing in the tables has changed. */
  lemma {:induction false} NameOverwritten(v: Byte, b: AR.Boot, w: Plan, qs: seq<Sys>, ts: seq<AR.Turn>, c: Sys)
    requires v != 97 && Packable(LONG) && b == LongBoot()
    requires w == PlanOf(b, PackedAll([LONG]), Zeros(BLOCK), Slack([LONG]))
    requires qs == QuietBoot(b, PackedAll([LONG]), Zeros(BLOCK), Slack([LONG]))
    requires ts == [AR.Advance, AR.Take(1), AR.Store(FRAME, v)] && c == Turns(AtStart(b), w.junks, ts)
    ensures Ready(b, PackedAll([LONG]), Zeros(BLOCK), Slack([LONG])) && b.p == FRAME && b.used == {1, 2} && b.limit == 3
    ensures InstalledIn(FsOf(qs[1]), LONG) && c == qs[1].(boot := c.boot) && SysOk(c)
    ensures TreeOk(View(c.boot.ram, c.tree)) && Resolve(View(c.boot.ram, c.tree), TopOf(c), [[97]]) == None
  {
    LongInOrder(b, w, qs, PackedAll([LONG]));
    LongUsed();
    PackedBoots([LONG], 3, 0);
    LongLost(v, b, w, qs, ts, c);
  }

  lemma {:induction false} LongLost(v: Byte, b: AR.Boot, w: Plan, qs: seq<Sys>, ts: seq<AR.Turn>, c: Sys)
    requires QuietRun(qs, w) && qs[0] == AtStart(b) && |w.sizes| == 1 && w.ps[0] == FRAME && w.sizes[0] == 3584
    requires ProperAt(w, 0) && ItemOf(EntryAt(w, 0).image) == Some(LONG)
    requires b.used == {1, 2} && b.held == {} && b.limit == 3 && v != 97
    requires ts == [AR.Advance, AR.Take(1), AR.Store(FRAME, v)] && c == Turns(AtStart(b), w.junks, ts)
    ensures c == qs[1].(boot := c.boot) && SysOk(c)
    ensures TreeOk(View(c.boot.ram, c.tree)) && Resolve(View(c.boot.ram, c.tree), TopOf(c), [[97]]) == None
  {
    LongFrees(b, w, qs);
    LongRun(v, b, w, qs, ts, c);
    LongKey(b, w, qs, PT.Mem(FRAME, 1));
    OverwrittenMisses(c, PT.Mem(FRAME, 1));
  }

  lemma OverwrittenMisses(c: Sys, key: PT.Key)
    requires SysOk(c) && AllKeys(c.tree, Only(key)) && key == PT.Mem(FRAME, 1)
    requires FRAME < |c.boot.ram| && c.boot.ram[FRAME] != 97
    ensures TreeOk(View(c.boot.ram, c.tree)) && Resolve(View(c.boot.ram, c.tree), TopOf(c), [[97]]) == None
  {
    assert PT.Spelt(c.boot.ram, key)[0] != 97;
    ViewOk(c.boot.ram, c.tree);
    OtherwiseMisses(c.boot.ram, c.tree, TopOf(c), key, [97]);
  }

  lemma LongUsed()
    requires Packable(LONG)
    ensures LongBoot().used == {1, 2}
  {
    var ms := PackedAll([LONG]);
    assert ms[1..] == [];
    assert |Archive(ms, Zeros(BLOCK))| == FRAME + BLOCK;
  }

  lemma {:induction false} LongRun(v: Byte, b: AR.Boot, w: Plan, qs: seq<Sys>, ts: seq<AR.Turn>, c: Sys)
    requires QuietRun(qs, w) && |w.sizes| == 1 && qs[0] == AtStart(b) && b.limit == 3
    requires qs[1].boot.used == {2} && qs[1].boot.held == {} && qs[1].boot.limit == 3 && FRAME < |qs[1].boot.ram|
    requires ts == [AR.Advance, AR.Take(1), AR.Store(FRAME, v)] && c == Turns(AtStart(b), w.junks, ts)
    ensures c == qs[1].(boot := c.boot) && c.boot.ram == qs[1].boot.ram[FRAME := v]
  {
    var us := [AR.Take(1), AR.Store(FRAME, v)];
    assert ts == [AR.Advance] + us && QuietTurn(qs, w, 0);
    TurnsSplit(qs[0], w.junks, [AR.Advance], us);
    PlayOne(Turner(w.junks), qs[0], AR.Advance);
    QuietNext(qs, w, 0);
    TakenAndWritten(qs[1].boot, v, us);
    OthersOnly(qs[1], w.junks, us);
  }
}
