/** The boot archive: a ustar image in memory, read member by member while the frames already read are
    handed back to the frame allocator. */
module BootArchive {
  import opened Words
  import opened FrameAllocator

  const BLOCK := 512
  const SIZE_AT := 124
  const MAGIC_AT := 257
  const USTAR: seq<Byte> := [117, 115, 116, 97, 114]

  // ----- Octal fields -----

  /** One step of oct2int, in 64 bits. */
  function OctStep(v: nat, c: Byte): nat { (v * 8 + c + WORD - 48) % WORD }

  /** oct2int over a field: up to its first NUL. */
  function OctValue(s: seq<Byte>, v: nat): nat
    decreases |s|
  {
    if s == [] || s[0] == 0 then v else OctValue(s[1..], OctStep(v, s[0]))
  }

  method Oct2Int(s: seq<Byte>) returns (v: nat)
    ensures v == OctValue(s, 0)
  {
    v := 0;
    var i := 0;
    while i < |s| && s[i] != 0
      invariant 0 <= i <= |s| && OctValue(s, 0) == OctValue(s[i..], v)
    {
      assert s[i..][0] == s[i] && s[i..][1..] == s[i + 1..];
      v := OctStep(v, s[i]);
      i := i + 1;
    }
  }

  function Power8(k: nat): (r: nat)
    ensures r >= 1
  {
    if k == 0 then 1 else 8 * Power8(k - 1)
  }

  /** n as k octal digits, zero-padded. */
  function Octal(n: nat, k: nat): (s: seq<Byte>)
    ensures |s| == k && forall i :: 0 <= i < k ==> 48 <= s[i] < 56
    decreases k
  {
    if k == 0 then [] else Octal(n / 8, k - 1) + [48 + n % 8]
  }

  lemma {:induction false} OctAppend(s: seq<Byte>, c: Byte, t: seq<Byte>, v: nat)
    requires c != 0 && forall i :: 0 <= i < |s| ==> s[i] != 0
    ensures OctValue(s + [c] + t, v) == OctValue(t, OctStep(OctValue(s, v), c))
    decreases |s|
  {
    var w := s + [c] + t;
    if s == [] {
      assert w[1..] == t;
    } else {
      assert w[1..] == s[1..] + [c] + t;
      OctAppend(s[1..], c, t, OctStep(v, s[0]));
    }
  }

  /** A NUL-terminated octal field reads back as the number it was written from. */
  lemma {:induction false} OctRoundTrip(n: nat, k: nat, t: seq<Byte>)
    requires n < Power8(k) && k <= 11 && t != [] && t[0] == 0
    ensures OctValue(Octal(n, k) + t, 0) == n
    decreases k
  {
    if k == 0 { assert Octal(n, k) + t == t; }
    else {
      var q, d: Byte := n / 8, 48 + n % 8;
      assert q < Power8(k - 1);
      OctRoundTrip(q, k - 1, t);
      OctStops(Octal(q, k - 1), t, 0);
      assert Octal(n, k) + t == Octal(q, k - 1) + [d] + t;
      OctAppend(Octal(q, k - 1), d, t, 0);
      Power8Small(k);
      assert OctStep(q, d) == n;
    }
  }

  lemma {:induction false} OctStops(s: seq<Byte>, t: seq<Byte>, v: nat)
    requires t != [] && t[0] == 0
    ensures OctValue(s + t, v) == OctValue(s, v)
    decreases |s|
  {
    if s == [] { assert s + t == t; }
    else if s[0] != 0 { assert (s + t)[1..] == s[1..] + t; OctStops(s[1..], t, OctStep(v, s[0])); }
  }

  lemma Power8Small(k: nat)
    requires k <= 11
    ensures Power8(k) <= 0x2_0000_0000
  {
    Power8Monotone(k, 11);
    assert Power8(11) == 0x2_0000_0000;
  }

  lemma {:induction false} Power8Monotone(j: nat, k: nat)
    requires j <= k
    ensures Power8(j) <= Power8(k)
    decreases k - j
  {
    if j < k { Power8Monotone(j, k - 1); }
  }

  // ----- The walk -----

  function StepLen(size: nat): (n: nat)
    ensures n >= BLOCK
  {
    BLOCK + AlignUp(size, BLOCK)
  }

  predicate IsUstar(ram: seq<Byte>, p: nat)
  {
    p + BLOCK <= |ram| && ram[p + MAGIC_AT..p + MAGIC_AT + 5] == USTAR
  }

  function SizeAt(ram: seq<Byte>, p: nat): nat
    requires p + BLOCK <= |ram|
  {
    OctValue(ram[p + SIZE_AT..p + SIZE_AT + 12], 0)
  }

  /** One turn of the loop at p: a header, its contents of the given size inside memory, and the next
      header at q. */
  predicate MemberAt(ram: seq<Byte>, p: nat, q: nat, size: nat)
  {
    IsUstar(ram, p) && size == SizeAt(ram, p) && p + BLOCK + size <= |ram| && q == p + StepLen(size)
  }

  /** The loop ends at p. */
  predicate EndsAt(ram: seq<Byte>, p: nat) { p + BLOCK <= |ram| && !IsUstar(ram, p) }

  predicate TurnAt(ram: seq<Byte>, ps: seq<nat>, sizes: seq<nat>, i: nat)
    requires |ps| == |sizes| + 1 && i < |sizes|
  {
    MemberAt(ram, ps[i], ps[i + 1], sizes[i])
  }

  /** The loop sees exactly the members with headers at ps and these sizes, and ends at the last of ps. */
  ghost predicate Route(ram: seq<Byte>, ps: seq<nat>, sizes: seq<nat>)
  {
    && |ps| == |sizes| + 1 && EndsAt(ram, ps[|sizes|])
    && forall i: nat {:trigger TurnAt(ram, ps, sizes, i)} :: i < |sizes| ==> TurnAt(ram, ps, sizes, i)
  }

  /** Memory determines what the loop sees. */
  lemma {:induction false} RouteUnique(ram: seq<Byte>, ps: seq<nat>, sizes: seq<nat>, qs: seq<nat>, others: seq<nat>,
                                       i: nat)
    requires Route(ram, ps, sizes) && Route(ram, qs, others) && ps[0] == qs[0] && i <= |sizes|
    ensures i <= |others| && ps[i] == qs[i] && sizes[..i] == others[..i] && (i == |sizes| ==> i == |others|)
    decreases i
  {
    if i > 0 {
      RouteUnique(ram, ps, sizes, qs, others, i - 1);
      assert TurnAt(ram, ps, sizes, i - 1);
      if i - 1 < |others| { assert TurnAt(ram, qs, others, i - 1); }
      assert sizes[..i] == sizes[..i - 1] + [sizes[i - 1]] && others[..i] == others[..i - 1] + [others[i - 1]];
    }
    if i < |others| { assert TurnAt(ram, qs, others, i); }
  }

  /** An archive member as laid out: a header block, contents, padding to a whole number of blocks; its
      size is written with the given number of octal digits. */
  datatype Member = Member(image: seq<Byte>, size: nat, digits: nat)

  predicate MemberOk(m: Member)
  {
    && |m.image| == StepLen(m.size) && m.image[MAGIC_AT..MAGIC_AT + 5] == USTAR
    && m.digits <= 11 && m.size < Power8(m.digits)
    && m.image[SIZE_AT..SIZE_AT + m.digits + 1] == Octal(m.size, m.digits) + [0]
  }

  /** Members one after another, then a block that is no header. */
  function Archive(ms: seq<Member>, tail: seq<Byte>): seq<Byte>
    decreases |ms|
  {
    if ms == [] then tail else ms[0].image + Archive(ms[1..], tail)
  }

  predicate TailOk(tail: seq<Byte>) { |tail| >= BLOCK && tail[MAGIC_AT..MAGIC_AT + 5] != USTAR }

  /** The archive stands in memory at p. */
  predicate PlacedAt(ram: seq<Byte>, p: nat, a: seq<Byte>) { p + |a| <= |ram| && ram[p..p + |a|] == a }

  lemma PlacedPart(ram: seq<Byte>, p: nat, a: seq<Byte>, i: nat, j: nat)
    requires PlacedAt(ram, p, a) && i <= j <= |a|
    ensures ram[p + i..p + j] == a[i..j]
  {
    forall k | 0 <= k < j - i ensures ram[p + i..p + j][k] == a[i..j][k] { assert ram[p..p + |a|][i + k] == a[i + k]; }
  }

  lemma SizeRead(m: Member)
    requires MemberOk(m)
    ensures OctValue(m.image[SIZE_AT..SIZE_AT + 12], 0) == m.size
  {
    var t := m.image[SIZE_AT + m.digits..SIZE_AT + 12];
    assert m.image[SIZE_AT..SIZE_AT + m.digits + 1][m.digits] == 0;
    assert m.image[SIZE_AT..SIZE_AT + m.digits]
           == m.image[SIZE_AT..SIZE_AT + m.digits + 1][..m.digits] == Octal(m.size, m.digits);
    assert m.image[SIZE_AT..SIZE_AT + 12] == Octal(m.size, m.digits) + t;
    OctRoundTrip(m.size, m.digits, t);
  }

  lemma MemberSeen(ram: seq<Byte>, p: nat, m: Member)
    requires MemberOk(m) && PlacedAt(ram, p, m.image)
    ensures MemberAt(ram, p, p + |m.image|, m.size)
  {
    PlacedPart(ram, p, m.image, MAGIC_AT, MAGIC_AT + 5);
    PlacedPart(ram, p, m.image, SIZE_AT, SIZE_AT + 12);
    SizeRead(m);
  }

  lemma PlacedSplit(ram: seq<Byte>, p: nat, a: seq<Byte>, b: seq<Byte>)
    requires PlacedAt(ram, p, a + b)
    ensures PlacedAt(ram, p, a) && PlacedAt(ram, p + |a|, b)
  {
    PlacedPart(ram, p, a + b, 0, |a|);
    PlacedPart(ram, p, a + b, |a|, |a + b|);
  }

  lemma {:induction false} TailSeen(ram: seq<Byte>, p: nat, tail: seq<Byte>)
    requires TailOk(tail) && PlacedAt(ram, p, tail)
    ensures EndsAt(ram, p)
  {
    PlacedPart(ram, p, tail, MAGIC_AT, MAGIC_AT + 5);
  }

  function Sizes(ms: seq<Member>): (r: seq<nat>)
    ensures |r| == |ms|
    decreases |ms|
  {
    if ms == [] then [] else [ms[0].size] + Sizes(ms[1..])
  }

  /** Where the members' headers are, and the block after them. */
  function Headers(p: nat, ms: seq<Member>): (ps: seq<nat>)
    ensures |ps| == |ms| + 1 && ps[0] == p
    decreases |ms|
  {
    if ms == [] then [p] else [p] + Headers(p + |ms[0].image|, ms[1..])
  }

  /** Behind the i-th header stand the i-th member's own bytes, and behind them the next header. */
  lemma {:induction false} MemberContents(ram: seq<Byte>, p: nat, ms: seq<Member>, tail: seq<Byte>, i: nat)
    requires PlacedAt(ram, p, Archive(ms, tail)) && i < |ms|
    ensures PlacedAt(ram, Headers(p, ms)[i], ms[i].image) && Sizes(ms)[i] == ms[i].size
    ensures Headers(p, ms)[i + 1] == Headers(p, ms)[i] + |ms[i].image|
    decreases |ms|
  {
    PlacedSplit(ram, p, ms[0].image, Archive(ms[1..], tail));
    if i > 0 { MemberContents(ram, p + |ms[0].image|, ms[1..], tail, i - 1); }
  }

  lemma {:induction false} TailPlaced(ram: seq<Byte>, p: nat, ms: seq<Member>, tail: seq<Byte>)
    requires PlacedAt(ram, p, Archive(ms, tail))
    ensures PlacedAt(ram, Headers(p, ms)[|ms|], tail)
    decreases |ms|
  {
    if ms != [] {
      PlacedSplit(ram, p, ms[0].image, Archive(ms[1..], tail));
      TailPlaced(ram, p + |ms[0].image|, ms[1..], tail);
    }
  }

  /** The walk visits exactly the archive's members, in order and with their sizes, and stops. */
  lemma {:induction false} WalkVisitsMembers(ram: seq<Byte>, p: nat, ms: seq<Member>, tail: seq<Byte>, ps: seq<nat>,
                                             sizes: seq<nat>)
    requires (forall i :: 0 <= i < |ms| ==> MemberOk(ms[i])) && TailOk(tail) && PlacedAt(ram, p, Archive(ms, tail))
    requires ps == Headers(p, ms) && sizes == Sizes(ms)
    ensures Route(ram, ps, sizes)
  {
    forall i: nat | i < |sizes| ensures TurnAt(ram, ps, sizes, i) {
      MemberContents(ram, p, ms, tail, i);
      MemberSeen(ram, ps[i], ms[i]);
    }
    TailPlaced(ram, p, ms, tail);
    TailSeen(ram, ps[|sizes|], tail);
  }

  // ----- Handing memory back while reading -----

  /** The frames freed at the member whose header is at p. */
  function Freed(p: nat, size: nat): set<nat> { Run(p / FRAME, StepLen(size) / FRAME) }

  /** Every frame freed at a member ends at or before the next header, wherever the member starts. */
  lemma FreedBeforeNext(p: nat, size: nat, f: nat)
    requires f in Freed(p, size)
    ensures (f + 1) * FRAME <= p + StepLen(size)
  {
    var n := StepLen(size);
    assert f + 1 <= p / FRAME + n / FRAME;
  }

  /** Along a route, members lie one behind the other. */
  lemma {:induction false} RouteAscends(ram: seq<Byte>, ps: seq<nat>, sizes: seq<nat>, i: nat, j: nat)
    requires Route(ram, ps, sizes) && i < j <= |sizes|
    ensures ps[i] + StepLen(sizes[i]) <= ps[j]
    decreases j
  {
    assert TurnAt(ram, ps, sizes, j - 1);
    if i < j - 1 { RouteAscends(ram, ps, sizes, i, j - 1); }
  }

  /** No frame is freed at two members. */
  lemma FreedOnce(ram: seq<Byte>, ps: seq<nat>, sizes: seq<nat>, i: nat, j: nat)
    requires Route(ram, ps, sizes) && i < j < |sizes|
    ensures Freed(ps[i], sizes[i]) !! Freed(ps[j], sizes[j])
  {
    RouteAscends(ram, ps, sizes, i, j);
    forall f | f in Freed(ps[i], sizes[i]) ensures f !in Freed(ps[j], sizes[j]) {
      FreedBeforeNext(ps[i], sizes[i], f);
    }
  }

  /** All frames freed at the first n members of a route. */
  function FreedBy(ps: seq<nat>, sizes: seq<nat>, n: nat): set<nat>
    requires n <= |sizes| && n <= |ps|
    decreases n
  {
    if n == 0 then {} else FreedBy(ps, sizes, n - 1) + Freed(ps[n - 1], sizes[n - 1])
  }

  lemma FreedNext(used: set<nat>, ps: seq<nat>, sizes: seq<nat>, n: nat)
    requires n < |sizes| && n < |ps|
    ensures used - FreedBy(ps, sizes, n + 1) == used - FreedBy(ps, sizes, n) - Freed(ps[n], sizes[n])
  {
    TakeAway(used, FreedBy(ps, sizes, n), Freed(ps[n], sizes[n]));
  }

  lemma TakeAway(a: set<nat>, b: set<nat>, c: set<nat>)
    ensures a - (b + c) == a - b - c
  {
  }

  // ----- In place -----

  method CompareMagic(ram: seq<Byte>, p: nat) returns (same: bool)
    requires p + BLOCK <= |ram|
    ensures same == IsUstar(ram, p)
  {
    same := ram[p + MAGIC_AT..p + MAGIC_AT + 5] == USTAR;
  }

  /** The size of the member at p, and how far it is to the next header. */
  method ReadMember(ram: seq<Byte>, p: nat, ghost q: nat, ghost s: nat) returns (size: nat, step: nat)
    requires MemberAt(ram, p, q, s)
    ensures size == s && p + step == q
  {
    size := Oct2Int(ram[p + SIZE_AT..p + SIZE_AT + 12]);
    step := BLOCK + AlignUp(size, BLOCK);
  }

  /** One turn of the loop: read the header at p, free the frames passed, go on to the next header. */
  method ReadTurn(ram: seq<Byte>, p: nat, pmm: Pmm, ghost ps: seq<nat>, ghost sizes: seq<nat>,
                  ghost i: nat) returns (size: nat, next: nat, more: bool)
    requires pmm.Valid() && Route(ram, ps, sizes) && i < |sizes| && p == ps[i]
    requires |ram| <= FRAME * (8 * pmm.bitmap.Length)
    modifies pmm.bitmap
    ensures size == sizes[i] && next == ps[i + 1] && more == (i + 1 < |sizes|)
    ensures pmm.Used() == old(pmm.Used()) - Freed(ps[i], sizes[i])
  {
    assert TurnAt(ram, ps, sizes, i);
    RouteInside(ram, ps, sizes, i + 1);
    var step;
    size, step := ReadMember(ram, p, ps[i + 1], sizes[i]);
    FreeFits(p, step, |ram|, pmm.bitmap.Length);
    FreeFrames(pmm, p / FRAME, step / FRAME);
    next := p + step;
    more := CompareMagic(ram, next);
  }

  /** initramfs_init over an archive that ends inside memory: visits its members and frees the frames it
      has passed. */
  method ReadArchive(ram: seq<Byte>, start: nat, pmm: Pmm, ghost ps: seq<nat>,
                     ghost sizes: seq<nat>) returns (headers: seq<nat>, seen: seq<nat>)
    requires pmm.Valid() && Route(ram, ps, sizes) && ps[0] == start && |ram| <= FRAME * (8 * pmm.bitmap.Length)
    modifies pmm.bitmap
    ensures headers == ps[..|sizes|] && seen == sizes && pmm.Used() == old(pmm.Used()) - FreedBy(ps, sizes, |sizes|)
  {
    var p: nat := start;
    headers, seen := [], [];
    RouteInside(ram, ps, sizes, 0);
    var more := CompareMagic(ram, p);
    ghost var i, used := 0, pmm.Used();
    while more
      invariant i <= |sizes| && p == ps[i] && more == (i < |sizes|) && Prefix(headers, ps, i) && Prefix(seen, sizes, i)
      invariant pmm.Used() == used - FreedBy(ps, sizes, i)
      decreases |sizes| - i
    {
      PrefixNext(headers, ps, i);
      PrefixNext(seen, sizes, i);
      FreedNext(used, ps, sizes, i);
      var size, next, again := ReadTurn(ram, p, pmm, ps, sizes, i);
      headers, seen := headers + [p], seen + [size];
      p, more := next, again;
      i := i + 1;
    }
  }

  /** s is the first i elements of t. */
  ghost predicate Prefix(s: seq<nat>, t: seq<nat>, i: nat) { i <= |t| && s == t[..i] }

  lemma PrefixNext(s: seq<nat>, t: seq<nat>, i: nat)
    requires i < |t| && Prefix(s, t, i)
    ensures Prefix(s + [t[i]], t, i + 1)
  {
  }

  method FreeFrames(pmm: Pmm, f: nat, n: nat)
    requires pmm.Valid() && f + n <= 8 * pmm.bitmap.Length
    modifies pmm.bitmap
    ensures pmm.Used() == old(pmm.Used()) - Run(f, n)
  {
    pmm.Free(f, n);
  }

  lemma RouteInside(ram: seq<Byte>, ps: seq<nat>, sizes: seq<nat>, i: nat)
    requires Route(ram, ps, sizes) && i <= |sizes|
    ensures ps[i] + BLOCK <= |ram| && (IsUstar(ram, ps[i]) <==> i < |sizes|)
  {
    if i < |sizes| { assert TurnAt(ram, ps, sizes, i); }
  }

  lemma FreeFits(p: nat, step: nat, n: nat, bytes: nat)
    requires p + step + BLOCK <= n && n <= FRAME * (8 * bytes)
    ensures p / FRAME + step / FRAME <= 8 * bytes
  {
    assert FRAME * (p / FRAME + step / FRAME) <= p + step;
  }
}
