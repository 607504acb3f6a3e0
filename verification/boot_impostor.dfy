/** Why it is not enough for a path that its own names are out of reach: a name before one of them in its bucket
    can be made to read the same. */
module BootImpostor {
  import opened Words
  import opened FrameAllocator
  import opened Strings
  import opened FileTree
  import opened FileCreation
  import opened BootArchive
  import opened BootFiles
  import opened BootTree
  import opened KeyedTree
  import opened BootKeys
  import opened BootExact
  import opened BootDisturb
  import opened BootInstall
  import opened BootFirm
  import opened BootPacked
  import AR = ArchiveReclaim
  import HT = HashTable
  import PT = PointerTable
  import TF = TempFiles

  /** A path of one component finds its node in the directory that paths start from. */
  lemma StandsAtTop(q: Sys, d: nat, i: nat, k: nat, key: PT.Key, n: nat, name: Text)
    requires Stands(q, d, i, k, key, n, [name])
    ensures d == TopOf(q) && HasSlot(q.tree, d, i, k)
    ensures
      var b := q.tree.nodes[d].table.value;
      |b| > 0 && i == HT.Index(name, |b|) && k == PT.Found(q.boot.ram, b, name)
  {
    var ram, t, top := q.boot.ram, q.tree, TopOf(q);
    ResolveLast(View(ram, t), top, [name]);
    assert [name][..0] == [];
    var a, c := ChildSlot(ram, t, top, name, n);
    ChildFound(ram, t, top, name, n, t.nodes[top].table.value);
  }

  /** A name of the same hash, entered before, and within reach. */
  lemma ImpostorUnsure(q: Sys, d: nat, i: nat, k: nat, key: PT.Key, n: nat, name: Text,
                       e: nat, j: nat, l: nat, other: PT.Key, m: nat, text: Text)
    requires Stands(q, d, i, k, key, n, [name]) && Stands(q, e, j, l, other, m, [text])
    requires HT.Hash(text) == HT.Hash(name) && (d == e && i == j ==> l < k)
    requires PT.Pliable(q.boot.ram, other, AR.Open(q.boot), name)
    ensures !SureEnd(q, [name])
  {
    StandsAtTop(q, d, i, k, key, n, name);
    StandsAtTop(q, e, j, l, other, m, text);
    SureOne(q.boot.ram, q.tree, AR.Open(q.boot), d, [name]);
  }

  // ----- An archive -----

  /** Two names of one length and hash; the header of the first is in a frame of its own. */
  const EARLY: Item := Item([97, 66], false, Zeros(3584))
  const LATE: Item := Item([98, 33], false, [])

  lemma PairPackable()
    ensures AllPackable([EARLY, LATE]) && Segs(EARLY.path) == [[97, 66]] && Segs(LATE.path) == [[98, 33]]
  {
    Power8Small(DIGITS);
    assert Power8(DIGITS) == 0x2_0000_0000;
    OneSegment([97, 66]);
    OneSegment([98, 33]);
  }

  lemma OneSegment(name: Text)
    requires |name| == 2 && name[0] != SLASH && name[1] != SLASH && name != DOTDOT
    ensures Ordinary(name) && Segs(name) == [name]
  {
    assert Leading(name) == 0 && Body(name) == name;
    assert name[1..] == [name[1]] && Head([name[1]]) == [name[1]];
    assert Head(name) == name && Split(name) == [name];
  }

  lemma SameHash()
    ensures HT.Hash([97, 66]) == HT.Hash([98, 33])
  {
    assert [97, 66][..1] == [97] && [98, 33][..1] == [98] && [97][..0] == [] && [98][..0] == [];
    assert HT.Hash([97]) == 33 * 5381 + 97 && HT.Hash([98]) == 33 * 5381 + 98;
  }

  /** The boot with these two, in a memory of three frames. */
  function PairBoot(): AR.Boot
  {
    PairPackable();
    Loaded(PackedAll([EARLY, LATE]), 3)
  }

  /** The two members are the two items, one frame and one block long. */
  ghost predicate PairPlan(w: Plan)
  {
    && |w.sizes| == 2 && ProperAt(w, 0) && ItemOf(EntryAt(w, 0).image) == Some(EARLY)
    && ProperAt(w, 1) && ItemOf(EntryAt(w, 1).image) == Some(LATE)
  }

  lemma PairLaidOut(ms: seq<Member>)
    requires AllPackable([EARLY, LATE]) && ms == PackedAll([EARLY, LATE])
    ensures Headers(FRAME, ms) == [FRAME, 2 * FRAME, 2 * FRAME + BLOCK] && Sizes(ms) == [3584, 0]
    ensures |Archive(ms, Zeros(BLOCK))| == FRAME + 2 * BLOCK
  {
    var rest := ms[1..];
    assert rest == [ms[1]] && rest[1..] == [];
    assert |ms[0].image| == FRAME && |ms[1].image| == BLOCK;
    assert Headers(2 * FRAME, rest) == [2 * FRAME, 2 * FRAME + BLOCK] && Sizes(rest) == [0];
    assert |Archive(rest, Zeros(BLOCK))| == 2 * BLOCK;
  }

  lemma PairOrdered(xs: seq<Entry>)
    requires AllPackable([EARLY, LATE]) && xs == EntriesFor([EARLY, LATE])
    ensures AllProper(xs) && Ordered([], xs)
  {
    PairPackable();
    EntriesProper([EARLY, LATE]);
    EntriesName([EARLY, LATE], 0);
    EntriesName([EARLY, LATE], 1);
    var done := [] + [xs[0]];
    assert !Names(done[0], [[98, 33]]);
    assert xs[1..] == [xs[1]] && xs[1..][1..] == [];
    assert Follows([], xs[0]) && Follows(done, xs[1]);
  }

  lemma PairSpace(b: AR.Boot, ms: seq<Member>, w: Plan)
    requires AllPackable([EARLY, LATE]) && b == PairBoot() && ms == PackedAll([EARLY, LATE])
    requires w == PlanOf(b, ms, Zeros(BLOCK), Slack([EARLY, LATE]))
    ensures b.limit == 3 && b.used == {1, 2} && b.held == {} && |b.ram| == 2 * FRAME + 2 * BLOCK
    ensures w.ps == [FRAME, 2 * FRAME, 2 * FRAME + BLOCK] && w.sizes == [3584, 0]
  {
    PairLaidOut(ms);
    TwoFrames(Run(1, 2));
  }

  lemma TwoFrames(r: set<nat>)
    requires r == Run(1, 2)
    ensures r == {1, 2}
  {
  }

  lemma {:induction false} PairEntries(b: AR.Boot, ms: seq<Member>, w: Plan, junks: seq<seq<Byte>>)
    requires AllPackable([EARLY, LATE]) && ms == PackedAll([EARLY, LATE]) && junks == Slack([EARLY, LATE])
    requires Ready(b, ms, Zeros(BLOCK), junks) && w == PlanOf(b, ms, Zeros(BLOCK), junks)
    ensures PairPlan(w)
  {
    PlanEntry(b, ms, Zeros(BLOCK), junks, w, 0);
    PlanEntry(b, ms, Zeros(BLOCK), junks, w, 1);
    EntriesName([EARLY, LATE], 0);
    EntriesName([EARLY, LATE], 1);
  }

  lemma {:induction false} PairInOrder(b: AR.Boot, ms: seq<Member>, w: Plan, qs: seq<Sys>, junks: seq<seq<Byte>>)
    requires AllPackable([EARLY, LATE]) && b == PairBoot() && ms == PackedAll([EARLY, LATE])
    requires junks == Slack([EARLY, LATE])
    requires w == PlanOf(b, ms, Zeros(BLOCK), junks) && qs == QuietBoot(b, ms, Zeros(BLOCK), junks)
    ensures Ready(b, ms, Zeros(BLOCK), junks) && PairPlan(w) && QuietRun(qs, w) && qs[0] == AtStart(b)
  {
    PackedReady([EARLY, LATE], 3);
    PairOrdered(EntriesFor([EARLY, LATE]));
    QuietInOrder(b, ms, Zeros(BLOCK), junks, w, EntriesFor([EARLY, LATE]), qs);
    PairEntries(b, ms, w, junks);
  }

  lemma PairKeys()
    ensures KeyOf(FRAME, EARLY.path) == PT.Mem(FRAME, 2) && KeyOf(2 * FRAME, LATE.path) == PT.Mem(2 * FRAME, 2)
  {
  }

  lemma PairFreed(ps: seq<nat>, sizes: seq<nat>)
    requires ps == [FRAME, 2 * FRAME, 2 * FRAME + BLOCK] && sizes == [3584, 0]
    ensures FreedBy(ps, sizes, 2) == {1}
  {
    assert Freed(FRAME, 3584) == {1} && Freed(2 * FRAME, 0) == {};
    assert FreedBy(ps, sizes, 1) == {1};
  }

  /** At the end the first frame of the archive, and no other, is within reach. */
  lemma PairOpen(b: AR.Boot, w: Plan, qs: seq<Sys>)
    requires QuietRun(qs, w) && qs[0] == AtStart(b) && b.limit == 3 && b.used == {1, 2} && b.held == {}
    requires w.ps == [FRAME, 2 * FRAME, 2 * FRAME + BLOCK] && w.sizes == [3584, 0]
    ensures AR.Open(qs[2].boot) == {1}
  {
    OpensExactly(qs, w, 2);
    PairReach(b, w);
  }

  lemma PairReach(b: AR.Boot, w: Plan)
    requires b.limit == 3 && b.used == {1, 2} && b.held == {}
    requires w.ps == [FRAME, 2 * FRAME, 2 * FRAME + BLOCK] && w.sizes == [3584, 0]
    ensures AR.Open(b) + Reused(w, 3, 2) == {1}
  {
    PairFreed(w.ps, w.sizes);
    assert Spare({1, 2}, 3) == {};
  }

  lemma {:induction false} PairStands(w: Plan, qs: seq<Sys>)
    requires QuietRun(qs, w) && PairPlan(w) && w.ps[0] == FRAME && w.ps[1] == 2 * FRAME
    ensures PT.Pliable(qs[2].boot.ram, PT.Mem(FRAME, 2), AR.Open(qs[2].boot), [98, 33]) ==> !SureEnd(qs[2], [[98, 33]])
  {
    assert QuietTurn(qs, w, 0) && QuietTurn(qs, w, 1);
    PairPackable();
    PairKeys();
    SameHash();
    var e, j, l := PlacedStands(qs[0], w, 0, EARLY);
    var d, i, k := PlacedStands(qs[1], w, 1, LATE);
    var n, m, key, other := |qs[1].tree.nodes|, |qs[0].tree.nodes|, PT.Mem(2 * FRAME, 2), PT.Mem(FRAME, 2);
    StandsToEnd(qs, w, 1, 2, e, j, l, other, m, [[97, 66]]);
    if PT.Pliable(qs[2].boot.ram, other, AR.Open(qs[2].boot), [98, 33]) {
      ImpostorUnsure(qs[2], d, i, k, key, n, [98, 33], e, j, l, other, m, [97, 66]);
    }
  }

  lemma {:induction false} PairUnsure(b: AR.Boot, w: Plan, qs: seq<Sys>)
    requires QuietRun(qs, w) && qs[0] == AtStart(b) && PairPlan(w) && Ordinary(LATE.path)
    requires b.limit == 3 && b.used == {1, 2} && b.held == {} && |w.ram| >= 2 * FRAME
    requires w.ps == [FRAME, 2 * FRAME, 2 * FRAME + BLOCK] && w.sizes == [3584, 0]
    ensures PT.Firm(KeyOf(2 * FRAME, LATE.path), AR.Open(qs[2].boot)) && !Undisturbed(b, 2, w.junks, qs[2], LATE.path)
  {
    PairPackable();
    PairOpen(b, w, qs);
    PairKeys();
    PairStands(w, qs);
    assert |qs[2].boot.ram| == |w.ram|;
    PairPliable(qs[2].boot.ram, AR.Open(qs[2].boot));
    LastsFirm(b, qs, w, 1, LATE, [[98, 33]]);
  }

  lemma PairPliable(ram: seq<Byte>, open: set<nat>)
    requires |ram| >= 2 * FRAME && open == {1}
    ensures PT.Pliable(ram, PT.Mem(FRAME, 2), open, [98, 33]) && PT.Firm(PT.Mem(2 * FRAME, 2), open)
  {
  }

  /** The name of the second file is out of reach, and yet its path is not kept on every run: the name of the first,
      before it in the bucket, can be overwritten with it. */
  lemma {:induction false} ImpostorFound(b: AR.Boot, ms: seq<Member>, w: Plan, qs: seq<Sys>, junks: seq<seq<Byte>>)
    requires AllPackable([EARLY, LATE]) && b == PairBoot() && ms == PackedAll([EARLY, LATE])
    requires junks == Slack([EARLY, LATE])
    requires w == PlanOf(b, ms, Zeros(BLOCK), junks) && qs == QuietBoot(b, ms, Zeros(BLOCK), junks)
    ensures Ready(b, ms, Zeros(BLOCK), junks) && PairPlan(w) && w.ps[1] == 2 * FRAME && Ordinary(LATE.path)
    ensures PT.Firm(KeyOf(w.ps[1], LATE.path), AR.Open(qs[2].boot)) && !Undisturbed(b, 2, junks, qs[2], LATE.path)
  {
    PairPackable();
    PairInOrder(b, ms, w, qs, junks);
    PairSpace(b, ms, w);
    PairUnsure(b, w, qs);
  }
}
