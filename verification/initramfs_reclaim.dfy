/** The archive is read while its frames are being handed back: whatever the new holders of those frames
    write to them, the walk sees the archive as it was. */
module ArchiveReclaim {
  import opened Words
  import opened FrameAllocator
  import opened BootArchive

  /** One turn of the loop, somebody taking frames, or a write to a frame taken. */
  datatype Turn = Advance | Take(n: nat) | Store(a: nat, v: Byte)

  /** p is the next header, used the frames in use, held those taken since the walk began, and seen the
      bytes of each member read so far. */
  datatype Boot = Boot(p: nat, ram: seq<Byte>, used: set<nat>, held: set<nat>, limit: nat, seen: seq<seq<Byte>>)

  /** The header at p and a member that lies inside memory. */
  predicate Readable(ram: seq<Byte>, p: nat) { IsUstar(ram, p) && p + StepLen(SizeAt(ram, p)) <= |ram| }

  function Turned(b: Boot, t: Turn): Boot
  {
    match t
    case Advance =>
      if !Readable(b.ram, b.p) then b
      else
        var size := SizeAt(b.ram, b.p);
        var q := b.p + StepLen(size);
        b.(p := q, used := b.used - Freed(b.p, size), seen := b.seen + [b.ram[b.p..q]])
    case Take(n) =>
      (match FirstFit(b.used, b.limit, n)
       case None => b
       case Some(f) => b.(used := b.used + Run(f, n), held := b.held + Run(f, n)))
    case Store(a, v) => if a < |b.ram| && a / FRAME in b.held then b.(ram := b.ram[a := v]) else b
  }

  function AllTurned(b: Boot, ts: seq<Turn>): Boot
    decreases |ts|
  {
    if ts == [] then b else AllTurned(Turned(b, ts[0]), ts[1..])
  }

  /** Frame f holds bytes of the archive that are still to be read. */
  predicate Unread(p: nat, end: nat, f: nat) { f * FRAME < end && p < (f + 1) * FRAME }

  ghost predicate UnreadUsed(b: Boot, end: nat) { forall f: nat :: Unread(b.p, end, f) ==> f in b.used }

  /** Nobody else has a frame with unread archive in it. */
  ghost predicate HeldElsewhere(b: Boot, end: nat) { forall f: nat :: f in b.held ==> !Unread(b.p, end, f) }

  /** The unread part of the archive, up to end, is as it was in ram0. */
  ghost predicate Intact(b: Boot, end: nat, ram0: seq<Byte>)
  {
    |b.ram| == |ram0| && end <= |ram0| && forall a :: b.p <= a < end ==> b.ram[a] == ram0[a]
  }

  ghost predicate Safe(b: Boot, end: nat, ram0: seq<Byte>)
  {
    UnreadUsed(b, end) && HeldElsewhere(b, end) && Intact(b, end, ram0)
  }

  // ----- Each turn is safe -----

  lemma TakeSafe(b: Boot, n: nat, end: nat, ram0: seq<Byte>)
    requires Safe(b, end, ram0)
    ensures Safe(Turned(b, Take(n)), end, ram0)
  {
    if n == 0 { assert forall f :: Run(f, n) == {}; }
  }

  lemma StoreSafe(b: Boot, a: nat, v: Byte, end: nat, ram0: seq<Byte>)
    requires Safe(b, end, ram0)
    ensures Safe(Turned(b, Store(a, v)), end, ram0)
  {
    if a < |b.ram| && a / FRAME in b.held { assert !Unread(b.p, end, a / FRAME); }
  }

  lemma AdvanceSafe(b: Boot, end: nat, ram0: seq<Byte>)
    requires Safe(b, end, ram0)
    ensures Safe(Turned(b, Advance), end, ram0)
  {
    if Readable(b.ram, b.p) {
      var size := SizeAt(b.ram, b.p);
      var c := Turned(b, Advance);
      forall f: nat | Unread(c.p, end, f) ensures f in c.used {
        assert Unread(b.p, end, f);
        if f in Freed(b.p, size) { FreedBeforeNext(b.p, size, f); }
      }
      forall f: nat | f in c.held ensures !Unread(c.p, end, f) { assert !Unread(b.p, end, f); }
    }
  }

  // ----- The walk sees the archive as it was -----

  /** The walk stands at the j-th header of the route through ram0 and has seen the members before it. */
  ghost predicate OnRoute(b: Boot, ram0: seq<Byte>, ps: seq<nat>, sizes: seq<nat>, j: nat)
  {
    && Route(ram0, ps, sizes) && j <= |sizes| && b.p == ps[j] && |b.seen| == j
    && forall i: nat :: i < j ==> Seen(b, ram0, ps, i)
  }

  predicate Seen(b: Boot, ram0: seq<Byte>, ps: seq<nat>, i: nat)
  {
    i + 1 < |ps| && i < |b.seen| && ps[i] <= ps[i + 1] <= |ram0| && b.seen[i] == ram0[ps[i]..ps[i + 1]]
  }

  lemma SliceIntact(b: Boot, end: nat, ram0: seq<Byte>, lo: nat, hi: nat)
    requires Intact(b, end, ram0) && b.p <= lo <= hi <= end
    ensures b.ram[lo..hi] == ram0[lo..hi]
  {
  }

  /** What the loop reads at its header is what was there at the start. */
  lemma HeaderIntact(b: Boot, end: nat, ram0: seq<Byte>)
    requires Intact(b, end, ram0) && b.p + BLOCK <= end
    ensures IsUstar(b.ram, b.p) == IsUstar(ram0, b.p) && SizeAt(b.ram, b.p) == SizeAt(ram0, b.p)
  {
    SliceIntact(b, end, ram0, b.p + MAGIC_AT, b.p + MAGIC_AT + 5);
    SliceIntact(b, end, ram0, b.p + SIZE_AT, b.p + SIZE_AT + 12);
  }

  /** The route lies inside the archive. */
  ghost predicate Ends(ps: seq<nat>, end: nat) { forall i: nat :: i < |ps| ==> ps[i] + BLOCK <= end }

  lemma AdvanceOnRoute(b: Boot, end: nat, ram0: seq<Byte>, ps: seq<nat>, sizes: seq<nat>, j: nat)
    requires Safe(b, end, ram0) && OnRoute(b, ram0, ps, sizes, j) && Ends(ps, end)
    ensures OnRoute(Turned(b, Advance), ram0, ps, sizes, if j < |sizes| then j + 1 else j)
  {
    HeaderIntact(b, end, ram0);
    if j < |sizes| {
      assert TurnAt(ram0, ps, sizes, j) && ps[j + 1] + BLOCK <= end;
      SliceIntact(b, end, ram0, b.p, ps[j + 1]);
      var c := Turned(b, Advance);
      forall i: nat | i < j + 1 ensures Seen(c, ram0, ps, i) { if i < j { assert Seen(b, ram0, ps, i); } }
    }
  }

  lemma OtherOnRoute(b: Boot, t: Turn, ram0: seq<Byte>, ps: seq<nat>, sizes: seq<nat>, j: nat)
    requires OnRoute(b, ram0, ps, sizes, j) && !t.Advance?
    ensures OnRoute(Turned(b, t), ram0, ps, sizes, j)
  {
    var c := Turned(b, t);
    forall i: nat | i < j ensures Seen(c, ram0, ps, i) { assert Seen(b, ram0, ps, i); }
  }

  function Advances(ts: seq<Turn>): nat
    decreases |ts|
  {
    if ts == [] then 0 else (if ts[0].Advance? then 1 else 0) + Advances(ts[1..])
  }

  lemma {:induction false} AdvancesAdd(a: seq<Turn>, b: seq<Turn>)
    ensures Advances(a + b) == Advances(a) + Advances(b)
    decreases |a|
  {
    if a == [] { assert a + b == b; }
    else {
      assert (a + b)[0] == a[0] && (a + b)[1..] == a[1..] + b;
      AdvancesAdd(a[1..], b);
    }
  }

  lemma {:induction false} AllTurnedSplit(b: Boot, x: seq<Turn>, y: seq<Turn>)
    ensures AllTurned(b, x + y) == AllTurned(AllTurned(b, x), y)
    decreases |x|
  {
    if x == [] { assert x + y == y; }
    else {
      assert (x + y)[0] == x[0] && (x + y)[1..] == x[1..] + y;
      AllTurnedSplit(Turned(b, x[0]), x[1..], y);
    }
  }

  // ----- What others can bring about -----

  /** Frames somebody has taken, or can. */
  function Open(b: Boot): set<nat> { b.held + Spare(b.used, b.limit) }

  /** c is b after others have been at work. */
  predicate Meanwhile(b: Boot, c: Boot)
  {
    c.p == b.p && c.limit == b.limit && c.seen == b.seen && Open(c) == Open(b) && |c.ram| == |b.ram|
  }

  /** They can take every frame there is. */
  lemma {:induction false} TakeAll(b: Boot) returns (ts: seq<Turn>)
    ensures
      var c := AllTurned(b, ts);
      Advances(ts) == 0 && Meanwhile(b, c) && c.ram == b.ram && c.held == Open(b)
    decreases |Spare(b.used, b.limit)|
  {
    if Spare(b.used, b.limit) == {} { ts := []; }
    else {
      SpareFits(b.used, b.limit);
      var f := FirstFit(b.used, b.limit, 1).value;
      SpareTaken(b.used, b.limit, f);
      var c := Turned(b, Take(1));
      assert Run(f, 1) == {f} && f in Spare(b.used, b.limit);
      assert Open(c) == Open(b);
      var rest := TakeAll(c);
      ts := [Take(1)] + rest;
      assert ts[1..] == rest;
    }
  }

  /** And write what they like to them. */
  lemma {:induction false} WriteAll(b: Boot, r: seq<Byte>, n: nat) returns (ts: seq<Turn>)
    requires |r| == |b.ram| && n <= |r| && forall a: nat :: a < |r| && a / FRAME !in b.held ==> r[a] == b.ram[a]
    ensures
      var c := AllTurned(b, ts);
      Advances(ts) == 0 && Meanwhile(b, c) && c.held == b.held && c.ram == r[..n] + b.ram[n..]
    decreases n
  {
    if n == 0 { ts := []; }
    else {
      var front := WriteAll(b, r, n - 1);
      var c := AllTurned(b, front);
      ts := front + [Store(n - 1, r[n - 1])];
      AllTurnedSplit(b, front, [Store(n - 1, r[n - 1])]);
      AdvancesAdd(front, [Store(n - 1, r[n - 1])]);
      assert [Store(n - 1, r[n - 1])][1..] == [];
      var d := Turned(c, Store(n - 1, r[n - 1]));
      assert d.ram == r[..n] + b.ram[n..];
    }
  }

  /** Any memory that differs from this one in open frames only can come about. */
  lemma {:induction false} Reach(b: Boot, r: seq<Byte>) returns (ts: seq<Turn>)
    requires |r| == |b.ram| && forall a: nat :: a < |r| && a / FRAME !in Open(b) ==> r[a] == b.ram[a]
    ensures
      var c := AllTurned(b, ts);
      Advances(ts) == 0 && Meanwhile(b, c) && c.ram == r
  {
    var take := TakeAll(b);
    var c := AllTurned(b, take);
    var write := WriteAll(c, r, |r|);
    ts := take + write;
    AllTurnedSplit(b, take, write);
    AdvancesAdd(take, write);
    assert r[..|r|] + c.ram[|r|..] == r;
  }

  // ----- Whole runs -----

  lemma {:induction false} TurnsOnRoute(b: Boot, ts: seq<Turn>, end: nat, ram0: seq<Byte>, ps: seq<nat>,
                                        sizes: seq<nat>, j: nat)
    requires Safe(b, end, ram0) && OnRoute(b, ram0, ps, sizes, j) && Ends(ps, end)
    ensures Safe(AllTurned(b, ts), end, ram0)
    ensures OnRoute(AllTurned(b, ts), ram0, ps, sizes, Min(j + Advances(ts), |sizes|))
    decreases |ts|
  {
    if ts != [] {
      var j' := if ts[0].Advance? && j < |sizes| then j + 1 else j;
      match ts[0] {
        case Advance => AdvanceSafe(b, end, ram0); AdvanceOnRoute(b, end, ram0, ps, sizes, j);
        case Take(n) => TakeSafe(b, n, end, ram0); OtherOnRoute(b, ts[0], ram0, ps, sizes, j);
        case Store(a, v) => StoreSafe(b, a, v, end, ram0); OtherOnRoute(b, ts[0], ram0, ps, sizes, j);
      }
      TurnsOnRoute(Turned(b, ts[0]), ts[1..], end, ram0, ps, sizes, j');
    }
  }

  lemma {:induction false} HeaderInside(p: nat, ms: seq<Member>, tail: seq<Byte>, i: nat)
    requires |tail| >= BLOCK && i <= |ms|
    ensures Headers(p, ms)[i] + BLOCK <= p + |Archive(ms, tail)|
    decreases |ms|
  {
    if i > 0 { HeaderInside(p + |ms[0].image|, ms[1..], tail, i - 1); }
    else if ms != [] { HeaderInside(p + |ms[0].image|, ms[1..], tail, 0); }
  }

  /** A walk about to begin: the archive stands at p, all its frames are in use and nobody holds one. */
  ghost predicate Begins(b: Boot, ms: seq<Member>, tail: seq<Byte>)
  {
    && (forall i :: 0 <= i < |ms| ==> MemberOk(ms[i])) && TailOk(tail) && PlacedAt(b.ram, b.p, Archive(ms, tail))
    && UnreadUsed(b, b.p + |Archive(ms, tail)|) && b.held == {} && b.seen == []
  }

  /** However taking frames and writing to them is interleaved with the walk, and although it frees what it
      has passed: the walk reads every member as it was archived, none twice, none skipped, and what it has
      still to read is neither handed out nor changed. */
  lemma {:induction false} ReclaimSafe(b: Boot, ts: seq<Turn>, ms: seq<Member>, tail: seq<Byte>)
    requires Begins(b, ms, tail)
    ensures
      var c, n, end := AllTurned(b, ts), Min(Advances(ts), |ms|), b.p + |Archive(ms, tail)|;
      && n <= |ms| && c.p == Headers(b.p, ms)[n] && Safe(c, end, b.ram)
      && |c.seen| == n && forall i :: 0 <= i < n ==> c.seen[i] == ms[i].image
  {
    var ps, sizes, end := Headers(b.p, ms), Sizes(ms), b.p + |Archive(ms, tail)|;
    WalkVisitsMembers(b.ram, b.p, ms, tail, ps, sizes);
    forall i: nat | i < |ps| ensures ps[i] + BLOCK <= end { HeaderInside(b.p, ms, tail, i); }
    TurnsOnRoute(b, ts, end, b.ram, ps, sizes, 0);
    var c, n := AllTurned(b, ts), Min(Advances(ts), |ms|);
    forall i | 0 <= i < n ensures c.seen[i] == ms[i].image {
      assert Seen(c, b.ram, ps, i);
      MemberContents(b.ram, b.p, ms, tail, i);
    }
  }
}
