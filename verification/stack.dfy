/** The initial stack of a user program: the builder in sched_user_thread of
    src/proc/sched.c, and the reader that the System V AMD64 ABI gives every program. */
module InitialStack {
  import opened Words
  import opened PhysicalMemory

  const STACK_SIZE := 0x1_0000
  const AT_PHDR := 3
  const AT_PHENT := 4
  const AT_PHNUM := 5
  const AT_ENTRY := 9

  predicate CStrings(ss: seq<Text>) { forall i :: 0 <= i < |ss| ==> CString(ss[i]) }

  // ----- Layout -----

  /** Bytes taken by the strings and their terminators. */
  function Total(ss: seq<Text>): nat
    decreases |ss|
  {
    if ss == [] then 0 else |ss[0]| + 1 + Total(ss[1..])
  }

  /** The strings copied downwards from offset p, first string highest. The terminators are
      not written. */
  function Place(m: Ram, ss: seq<Text>, p: nat): (r: Ram)
    requires Total(ss) <= p <= |m|
    ensures |r| == |m|
    decreases |ss|
  {
    if ss == [] then m
    else
      var o := p - |ss[0]| - 1;
      Place(Blit(m, o, ss[0]), ss[1..], o)
  }

  /** The user addresses of the strings, counted down from top. */
  function Pointers(ss: seq<Text>, top: nat): (ps: seq<nat>)
    requires Total(ss) <= top
    ensures |ps| == |ss|
    decreases |ss|
  {
    if ss == [] then []
    else
      var o := top - |ss[0]| - 1;
      [o] + Pointers(ss[1..], o)
  }

  function AuxWords(a: Aux): seq<nat>
  {
    [AT_PHNUM, a.phnum] + ([AT_PHENT, a.phent] + ([AT_PHDR, a.phdr] + ([AT_ENTRY, a.entry] + [0, 0])))
  }

  /** argc, the argument pointers, the environment pointers and the auxiliary vector. */
  function VectorWords(pa: seq<nat>, pe: seq<nat>, a: Aux): seq<nat>
  {
    [|pa|] + (pa + [0] + (pe + [0] + AuxWords(a)))
  }

  /** The words from the final stack pointer up. */
  function StackWords(argv: seq<Text>, envp: seq<Text>, a: Aux, top: nat): seq<nat>
    requires Total(envp) + Total(argv) <= top
  {
    VectorWords(Pointers(argv, top - Total(envp)), Pointers(envp, top), a)
  }

  function EncodeAll(ws: seq<nat>): (d: seq<Byte>)
    ensures |d| == 8 * |ws|
    decreases |ws|
  {
    if ws == [] then [] else Encode(ws[0], 8) + EncodeAll(ws[1..])
  }

  function PutWords(m: Ram, o: nat, ws: seq<nat>): (r: Ram)
    requires o + 8 * |ws| <= |m|
    ensures |r| == |m|
  {
    Blit(m, o, EncodeAll(ws))
  }

  /** Offset of the highest word: the strings' end, rounded down, less the padding word. */
  function WordsEnd(argv: seq<Text>, envp: seq<Text>): int
    requires Total(envp) + Total(argv) <= STACK_SIZE
  {
    AlignDown(STACK_SIZE - Total(envp) - Total(argv), 16) - (if (|argv| + |envp| + 1) % 2 != 0 then 8 else 0)
  }

  /** Offset of the final stack pointer. */
  function Bottom(argv: seq<Text>, envp: seq<Text>): int
    requires Total(envp) + Total(argv) <= STACK_SIZE
  {
    WordsEnd(argv, envp) - 8 * (13 + |argv| + |envp|)
  }

  predicate StackFits(argv: seq<Text>, envp: seq<Text>)
  {
    Total(envp) + Total(argv) <= STACK_SIZE && Bottom(argv, envp) >= 0
  }

  /** A user stack top: room for the stack below it, inside the 64-bit address space. */
  predicate TopOk(top: nat) { STACK_SIZE < top < WORD && top % 16 == 0 }

  lemma {:induction false} PointersBound(ss: seq<Text>, top: nat, k: nat)
    requires Total(ss) <= top && k < |ss|
    ensures top - Total(ss) <= Pointers(ss, top)[k] < top
    decreases |ss|
  {
    if k > 0 { PointersBound(ss[1..], top - |ss[0]| - 1, k - 1); }
  }

  ghost predicate Small(ws: seq<nat>) { forall k :: 0 <= k < |ws| ==> ws[k] < WORD }

  lemma SmallJoin(x: seq<nat>, y: seq<nat>)
    requires Small(x) && Small(y)
    ensures Small(x + y)
  {
  }

  lemma SmallAux(a: Aux)
    requires AuxOk(a)
    ensures |AuxWords(a)| == 10 && Small(AuxWords(a))
  {
  }

  lemma SmallPointers(ss: seq<Text>, top: nat)
    requires Total(ss) <= top < WORD
    ensures Small(Pointers(ss, top))
  {
    forall k | 0 <= k < |ss| ensures Pointers(ss, top)[k] < WORD { PointersBound(ss, top, k); }
  }

  lemma {:induction false} SmallVectors(pa: seq<nat>, pe: seq<nat>, a: Aux)
    requires Small(pa) && Small(pe) && AuxOk(a) && |pa| < WORD
    ensures |VectorWords(pa, pe, a)| == 13 + |pa| + |pe| && Small(VectorWords(pa, pe, a))
  {
    SmallAux(a);
    SmallJoin(pe, [0]);
    SmallJoin(pe + [0], AuxWords(a));
    SmallJoin(pa, [0]);
    SmallJoin(pa + [0], pe + [0] + AuxWords(a));
    SmallJoin([|pa|], pa + [0] + (pe + [0] + AuxWords(a)));
  }

  lemma {:induction false} WordsBound(argv: seq<Text>, envp: seq<Text>, a: Aux, top: nat)
    requires StackFits(argv, envp) && TopOk(top) && AuxOk(a)
    ensures |StackWords(argv, envp, a, top)| == 13 + |argv| + |envp| && Small(StackWords(argv, envp, a, top))
  {
    SmallPointers(argv, top - Total(envp));
    SmallPointers(envp, top);
    SmallVectors(Pointers(argv, top - Total(envp)), Pointers(envp, top), a);
  }

  /** The stack memory the new program starts with. */
  function Built(argv: seq<Text>, envp: seq<Text>, a: Aux, top: nat): (r: Ram)
    requires StackFits(argv, envp) && TopOk(top) && AuxOk(a)
    ensures |r| == STACK_SIZE
  {
    WordsBound(argv, envp, a, top);
    PutWords(ArgsPlaced(argv, envp), Bottom(argv, envp), StackWords(argv, envp, a, top))
  }

  function StackPointer(argv: seq<Text>, envp: seq<Text>, top: nat): (rsp: int)
    requires StackFits(argv, envp)
  {
    top - (STACK_SIZE - Bottom(argv, envp))
  }

  lemma WordsKeepAlignment(x: int, n: nat)
    requires x % 16 == 0
    ensures (x - (if (n + 1) % 2 != 0 then 8 else 0) - 8 * (13 + n)) % 16 == 0
  {
    var k := n / 2;
    if n % 2 == 0 {
      assert x - 8 - 8 * (13 + n) == x - 16 * (7 + k);
    } else {
      assert x - 8 * (13 + n) == x - 16 * (7 + k);
    }
  }

  /** The ABI's alignment of the stack at program entry. */
  lemma {:induction false} StackAligned(argv: seq<Text>, envp: seq<Text>, top: nat)
    requires StackFits(argv, envp) && TopOk(top)
    ensures StackPointer(argv, envp, top) % 16 == 0
  {
    var o := Bottom(argv, envp);
    WordsKeepAlignment(AlignDown(STACK_SIZE - Total(envp) - Total(argv), 16), |argv| + |envp|);
    SixteensAdd(top - STACK_SIZE, o);
  }

  lemma SixteensAdd(a: int, b: int)
    requires a % 16 == 0 && b % 16 == 0
    ensures (a + b) % 16 == 0
  {
  }

  // ----- What the builder leaves in memory -----

  lemma {:induction false} PlaceKeeps(m: Ram, ss: seq<Text>, p: nat, k: nat)
    requires Total(ss) <= p <= |m| && k < |m| && (k < p - Total(ss) || p <= k)
    ensures Place(m, ss, p)[k] == m[k]
    decreases |ss|
  {
    if ss != [] {
      var o := p - |ss[0]| - 1;
      PlaceKeeps(Blit(m, o, ss[0]), ss[1..], o, k);
    }
  }

  predicate BlankBetween(m: Ram, lo: nat, hi: nat) { hi <= |m| && forall k :: lo <= k < hi ==> m[k] == 0 }

  lemma {:induction false} PlacedFirst(m: Ram, s: Text, rest: seq<Text>, p: nat, o: nat)
    requires o == p - |s| - 1 && Total(rest) <= o && p <= |m| && BlankBetween(m, o, p)
    ensures TextAt(Place(Blit(m, o, s), rest, o), o, s)
  {
    var m1 := Blit(m, o, s);
    var r := Place(m1, rest, o);
    forall k: nat | o <= k < p ensures r[k] == m1[k] { PlaceKeeps(m1, rest, o, k); }
    assert r[o..o + |s|] == s;
  }

  /** In zeroed memory the copied strings are terminated, although no terminator is copied. */
  lemma {:induction false} PlacedText(m: Ram, ss: seq<Text>, p: nat, i: nat)
    requires Total(ss) <= p <= |m| && i < |ss| && BlankBetween(m, p - Total(ss), p)
    ensures TextAt(Place(m, ss, p), Pointers(ss, p)[i], ss[i])
    decreases |ss|
  {
    var s, o := ss[0], p - |ss[0]| - 1;
    if i > 0 {
      PlacedText(Blit(m, o, s), ss[1..], o, i - 1);
    } else {
      PlacedFirst(m, s, ss[1..], p, o);
    }
  }

  lemma {:induction false} EncodedWord(ws: seq<nat>, k: nat)
    requires k < |ws|
    ensures EncodeAll(ws)[8 * k..8 * k + 8] == Encode(ws[k], 8)
    decreases |ws|
  {
    var d, rest := EncodeAll(ws), EncodeAll(ws[1..]);
    if k > 0 {
      EncodedWord(ws[1..], k - 1);
      assert d[8 * k..8 * k + 8] == rest[8 * (k - 1)..8 * (k - 1) + 8];
    }
  }

  lemma {:induction false} PutWordsRead(m: Ram, o: nat, ws: seq<nat>, k: nat)
    requires o + 8 * |ws| <= |m| && k < |ws| && ws[k] < WORD
    ensures WordAt(PutWords(m, o, ws), o + 8 * k) == ws[k]
  {
    EncodedWord(ws, k);
    BlitRead(m, o, EncodeAll(ws), 8 * k, 8 * k + 8);
    WordBound();
    DecodeEncode(ws[k], 8);
  }

  lemma BlitRead(m: Ram, o: nat, d: seq<Byte>, i: nat, j: nat)
    requires o + |d| <= |m| && i <= j <= |d|
    ensures Blit(m, o, d)[o + i..o + j] == d[i..j]
  {
  }

  /** User pointers and buffer offsets of the strings differ by the buffer's user address. */
  lemma {:induction false} PointersShift(ss: seq<Text>, p: nat, d: nat, i: nat)
    requires Total(ss) <= p && i < |ss|
    ensures Pointers(ss, p + d)[i] == Pointers(ss, p)[i] + d
    decreases |ss|
  {
    if i > 0 { PointersShift(ss[1..], p - |ss[0]| - 1, d, i - 1); }
  }

  lemma {:induction false} WordsBelowStrings(argv: seq<Text>, envp: seq<Text>)
    requires StackFits(argv, envp)
    ensures Bottom(argv, envp) + 8 * (13 + |argv| + |envp|) <= STACK_SIZE - Total(envp) - Total(argv)
  {
  }

  function EnvPlaced(envp: seq<Text>): (m: Ram)
    requires Total(envp) <= STACK_SIZE
    ensures |m| == STACK_SIZE
  {
    Place(Zeros(STACK_SIZE), envp, STACK_SIZE)
  }

  function ArgsPlaced(argv: seq<Text>, envp: seq<Text>): (m: Ram)
    requires Total(envp) + Total(argv) <= STACK_SIZE
    ensures |m| == STACK_SIZE
  {
    Place(EnvPlaced(envp), argv, STACK_SIZE - Total(envp))
  }

  /** The words do not reach the strings. */
  lemma {:induction false} BuiltKeepsStrings(argv: seq<Text>, envp: seq<Text>, a: Aux, top: nat, k: nat)
    requires StackFits(argv, envp) && TopOk(top) && AuxOk(a)
    requires STACK_SIZE - Total(envp) - Total(argv) <= k < STACK_SIZE
    ensures Built(argv, envp, a, top)[k] == ArgsPlaced(argv, envp)[k]
  {
    WordsBound(argv, envp, a, top);
    WordsBelowStrings(argv, envp);
  }

  lemma {:induction false} TextInBuilt(argv: seq<Text>, envp: seq<Text>, a: Aux, top: nat, o: nat, s: Text)
    requires StackFits(argv, envp) && TopOk(top) && AuxOk(a)
    requires TextAt(ArgsPlaced(argv, envp), o, s) && STACK_SIZE - Total(envp) - Total(argv) <= o
    ensures TextAt(Built(argv, envp, a, top), o, s)
  {
    var m, r := ArgsPlaced(argv, envp), Built(argv, envp, a, top);
    forall k | o <= k <= o + |s| && k < |m| ensures r[k] == m[k] {
      BuiltKeepsStrings(argv, envp, a, top, k);
    }
    TextKept(m, r, o, s);
  }

  /** Every environment string is in the stack where its pointer says. */
  lemma {:induction false} EnvText(argv: seq<Text>, envp: seq<Text>, a: Aux, top: nat, i: nat)
    requires StackFits(argv, envp) && TopOk(top) && AuxOk(a) && i < |envp|
    ensures TextAt(Built(argv, envp, a, top), Pointers(envp, STACK_SIZE)[i], envp[i])
  {
    var p, o := STACK_SIZE - Total(envp), Pointers(envp, STACK_SIZE)[i];
    var m, r := EnvPlaced(envp), ArgsPlaced(argv, envp);
    PlacedText(Zeros(STACK_SIZE), envp, STACK_SIZE, i);
    PointersBound(envp, STACK_SIZE, i);
    forall k | o <= k <= o + |envp[i]| && k < |m| ensures r[k] == m[k] {
      PlaceKeeps(m, argv, p, k);
    }
    TextKept(m, r, o, envp[i]);
    TextInBuilt(argv, envp, a, top, o, envp[i]);
  }

  /** Every argument string is in the stack where its pointer says. */
  lemma {:induction false} ArgText(argv: seq<Text>, envp: seq<Text>, a: Aux, top: nat, i: nat)
    requires StackFits(argv, envp) && TopOk(top) && AuxOk(a) && i < |argv|
    ensures TextAt(Built(argv, envp, a, top), Pointers(argv, STACK_SIZE - Total(envp))[i], argv[i])
  {
    var p := STACK_SIZE - Total(envp);
    forall k: nat | p - Total(argv) <= k < p ensures EnvPlaced(envp)[k] == 0 {
      PlaceKeeps(Zeros(STACK_SIZE), envp, STACK_SIZE, k);
    }
    PlacedText(EnvPlaced(envp), argv, p, i);
    PointersBound(argv, p, i);
    TextInBuilt(argv, envp, a, top, Pointers(argv, p)[i], argv[i]);
  }

  // ----- Reading the stack as a program does -----

  /** Memory as a program sees it. */
  type Space = nat -> Option<Byte>

  function Bytes(rd: Space, v: nat, n: nat): Option<seq<Byte>>
    decreases n
  {
    if n == 0 then Some([])
    else
      var b, rest := rd(v), Bytes(rd, v + 1, n - 1);
      if b.None? || rest.None? then None else Some([b.value] + rest.value)
  }

  function ReadWord(rd: Space, v: nat): Option<nat>
  {
    match Bytes(rd, v, 8)
    case None => None
    case Some(d) => Some(Decode(d))
  }

  /** The string at v, up to its terminator. */
  function ReadText(rd: Space, v: nat): Option<Text>
    decreases WORD - v
  {
    if v >= WORD || rd(v).None? then None
    else if rd(v).value == 0 then Some([])
    else
      match ReadText(rd, v + 1)
      case None => None
      case Some(s) => Some([rd(v).value] + s)
  }

  function ReadTexts(rd: Space, ps: seq<nat>): Option<seq<Text>>
    decreases |ps|
  {
    if ps == [] then Some([])
    else
      var s, rest := ReadText(rd, ps[0]), ReadTexts(rd, ps[1..]);
      if s.None? || rest.None? then None else Some([s.value] + rest.value)
  }

  /** 64-bit loads. */
  type WordSpace = nat -> Option<nat>

  /** rw loads little-endian words of the memory rd. */
  ghost predicate Loads(rd: Space, rw: WordSpace)
  {
    forall v {:trigger LoadsAt(rd, rw, v)} :: LoadsAt(rd, rw, v)
  }

  predicate LoadsAt(rd: Space, rw: WordSpace, v: nat) { rw(v) == ReadWord(rd, v) }

  /** n words from v up. */
  function ReadWords(rw: WordSpace, v: nat, n: nat): Option<seq<nat>>
    decreases n
  {
    if n == 0 then Some([])
    else
      var w, rest := rw(v), ReadWords(rw, v + 8, n - 1);
      if w.None? || rest.None? then None else Some([w.value] + rest.value)
  }

  /** Words up to a null word. */
  function ReadUntilNull(rw: WordSpace, v: nat): Option<seq<nat>>
    decreases WORD - v
  {
    if v >= WORD || rw(v).None? then None
    else if rw(v).value == 0 then Some([])
    else
      match ReadUntilNull(rw, v + 8)
      case None => None
      case Some(ws) => Some([rw(v).value] + ws)
  }

  /** Auxiliary vector entries up to one of type 0. */
  function ReadAux(rw: WordSpace, v: nat): Option<seq<(nat, nat)>>
    decreases WORD - v
  {
    if v >= WORD || rw(v).None? || rw(v + 8).None? then None
    else if rw(v).value == 0 then Some([])
    else
      match ReadAux(rw, v + 16)
      case None => None
      case Some(xs) => Some([(rw(v).value, rw(v + 8).value)] + xs)
  }

  /** The pointers and auxiliary entries of the initial stack. */
  datatype Vectors = Vectors(args: seq<nat>, envs: seq<nat>, auxv: seq<(nat, nat)>)

  /** argc, argc argument pointers and a null word, environment pointers and a null word, then
      the auxiliary vector. */
  function ReadVectors(rw: WordSpace, rsp: nat): Option<Vectors>
  {
    var argc := rw(rsp);
    if argc.None? then None
    else
      var args := ReadWords(rw, rsp + 8, argc.value);
      var e := rsp + 8 * argc.value + 16;
      var envs := ReadUntilNull(rw, e);
      if args.None? || rw(e - 8) != Some(0) || envs.None? then None
      else
        match ReadAux(rw, e + 8 * |envs.value| + 8)
        case None => None
        case Some(auxv) => Some(Vectors(args.value, envs.value, auxv))
  }

  datatype Startup = Startup(argv: seq<Text>, envp: seq<Text>, auxv: seq<(nat, nat)>)

  /** Section 3.4.1 of the System V AMD64 ABI, "Initial Stack and Register State". */
  function ReadStartup(rd: Space, rw: WordSpace, rsp: nat): Option<Startup>
  {
    match ReadVectors(rw, rsp)
    case None => None
    case Some(x) =>
      var argv, envp := ReadTexts(rd, x.args), ReadTexts(rd, x.envs);
      if argv.None? || envp.None? then None else Some(Startup(argv.value, envp.value, x.auxv))
  }

  /** The program's memory at lo.. is the buffer m. */
  ghost predicate Agrees(rd: Space, m: Ram, lo: nat)
  {
    lo + |m| <= WORD && forall k: nat {:trigger AgreesAt(rd, m, lo, k)} :: k < |m| ==> AgreesAt(rd, m, lo, k)
  }

  predicate AgreesAt(rd: Space, m: Ram, lo: nat, k: nat)
    requires k < |m|
  {
    rd(lo + k) == Some(m[k])
  }

  lemma {:induction false} BytesAgree(rd: Space, m: Ram, lo: nat, o: nat, n: nat)
    requires Agrees(rd, m, lo) && o + n <= |m|
    ensures Bytes(rd, lo + o, n) == Some(m[o..o + n])
    decreases n
  {
    if n == 0 { assert m[o..o + n] == []; }
    else {
      assert AgreesAt(rd, m, lo, o);
      BytesAgree(rd, m, lo, o + 1, n - 1);
      SliceHead(m, o, n);
      assert Bytes(rd, lo + o, n) == Some([m[o]] + m[o + 1..o + 1 + (n - 1)]);
    }
  }

  lemma SliceHead(m: Ram, o: nat, n: nat)
    requires 0 < n && o + n <= |m|
    ensures m[o..o + n] == [m[o]] + m[o + 1..o + 1 + (n - 1)]
  {
    assert m[o..o + n][0] == m[o] && m[o..o + n][1..] == m[o + 1..o + n];
  }

  lemma {:induction false} WordAgrees(rd: Space, m: Ram, lo: nat, o: nat, v: nat)
    requires Agrees(rd, m, lo) && o + 8 <= |m| && v == lo + o
    ensures ReadWord(rd, v) == Some(WordAt(m, o))
  {
    BytesAgree(rd, m, lo, o, 8);
  }

  lemma {:induction false} TextAgrees(rd: Space, m: Ram, lo: nat, o: nat, s: Text)
    requires Agrees(rd, m, lo) && TextAt(m, o, s) && CString(s)
    ensures ReadText(rd, lo + o) == Some(s)
    decreases |s|
  {
    if s == [] {
      assert AgreesAt(rd, m, lo, o);
    } else {
      assert AgreesAt(rd, m, lo, o) && m[o] == m[o..o + |s|][0];
      assert m[o + 1..o + |s|] == s[1..] && s == [s[0]] + s[1..];
      TextAgrees(rd, m, lo, o + 1, s[1..]);
    }
  }

  /** All strings are read back through pointers into the buffer. */
  lemma {:induction false} TextsAgree(rd: Space, m: Ram, lo: nat, ps: seq<nat>, ss: seq<Text>)
    requires Agrees(rd, m, lo) && |ps| == |ss| && CStrings(ss)
    requires forall i :: 0 <= i < |ps| ==> ps[i] >= lo && TextAt(m, ps[i] - lo, ss[i])
    ensures ReadTexts(rd, ps) == Some(ss)
    decreases |ps|
  {
    if ps != [] {
      TextAgrees(rd, m, lo, ps[0] - lo, ss[0]);
      TextsAgree(rd, m, lo, ps[1..], ss[1..]);
      assert ss == [ss[0]] + ss[1..];
    }
  }

  /** The words ws stand at v. */
  ghost predicate Seen(rw: WordSpace, v: nat, ws: seq<nat>)
  {
    forall k {:trigger ws[k]} :: 0 <= k < |ws| ==> rw(v + 8 * k) == Some(ws[k])
  }

  lemma {:induction false} SeenSplit(rw: WordSpace, v: nat, xs: seq<nat>, ys: seq<nat>)
    requires Seen(rw, v, xs + ys)
    ensures Seen(rw, v, xs) && Seen(rw, v + 8 * |xs|, ys)
  {
    forall k | 0 <= k < |xs| ensures rw(v + 8 * k) == Some(xs[k]) {
      assert (xs + ys)[k] == xs[k];
    }
    forall k | 0 <= k < |ys| ensures rw(v + 8 * |xs| + 8 * k) == Some(ys[k]) {
      assert (xs + ys)[|xs| + k] == ys[k];
    }
  }

  lemma {:induction false} SeenHead(rw: WordSpace, v: nat, ws: seq<nat>)
    requires Seen(rw, v, ws) && ws != []
    ensures rw(v) == Some(ws[0]) && Seen(rw, v + 8, ws[1..])
  {
    assert ws == [ws[0]] + ws[1..];
    SeenSplit(rw, v, [ws[0]], ws[1..]);
    assert [ws[0]][0] == ws[0];
  }

  lemma {:induction false} ReadWordsSeen(rw: WordSpace, v: nat, ws: seq<nat>)
    requires Seen(rw, v, ws)
    ensures ReadWords(rw, v, |ws|) == Some(ws)
    decreases |ws|
  {
    if ws != [] {
      SeenHead(rw, v, ws);
      ReadWordsSeen(rw, v + 8, ws[1..]);
      assert ws == [ws[0]] + ws[1..];
    }
  }

  lemma {:induction false} UntilNullSeen(rw: WordSpace, v: nat, ws: seq<nat>)
    requires Seen(rw, v, ws + [0]) && v + 8 * |ws| < WORD
    requires forall k :: 0 <= k < |ws| ==> ws[k] != 0
    ensures ReadUntilNull(rw, v) == Some(ws)
    decreases |ws|
  {
    SeenHead(rw, v, ws + [0]);
    if ws != [] {
      assert (ws + [0])[1..] == ws[1..] + [0];
      UntilNullSeen(rw, v + 8, ws[1..]);
      assert ws == [ws[0]] + ws[1..];
    }
  }

  /** Type and value words of auxiliary entries. */
  function Flatten(xs: seq<(nat, nat)>): seq<nat>
  {
    if xs == [] then [0, 0] else [xs[0].0, xs[0].1] + Flatten(xs[1..])
  }

  lemma {:induction false} AuxSeen(rw: WordSpace, v: nat, xs: seq<(nat, nat)>)
    requires Seen(rw, v, Flatten(xs)) && v + 16 * |xs| < WORD
    requires forall k :: 0 <= k < |xs| ==> xs[k].0 != 0
    ensures ReadAux(rw, v) == Some(xs)
    decreases |xs|
  {
    var ws := Flatten(xs);
    SeenHead(rw, v, ws);
    SeenHead(rw, v + 8, ws[1..]);
    if xs != [] {
      assert ws[1..][1..] == Flatten(xs[1..]);
      AuxSeen(rw, v + 16, xs[1..]);
      assert xs == [xs[0]] + xs[1..];
    }
  }

  function AuxPairs(a: Aux): seq<(nat, nat)>
  {
    [(AT_PHNUM, a.phnum), (AT_PHENT, a.phent), (AT_PHDR, a.phdr), (AT_ENTRY, a.entry)]
  }

  lemma {:induction false} AuxFlatten(a: Aux)
    ensures Flatten(AuxPairs(a)) == AuxWords(a)
  {
    var p: seq<(nat, nat)> := AuxPairs(a);
    var p1: seq<(nat, nat)> := p[1..];
    var p2: seq<(nat, nat)> := p1[1..];
    var p3: seq<(nat, nat)> := p2[1..];
    assert p1 == [(AT_PHENT, a.phent), (AT_PHDR, a.phdr), (AT_ENTRY, a.entry)];
    assert p2 == [(AT_PHDR, a.phdr), (AT_ENTRY, a.entry)];
    assert p3 == [(AT_ENTRY, a.entry)];
    assert |p3[1..]| == 0;
    assert Flatten(p3) == [AT_ENTRY, a.entry, 0, 0];
    assert Flatten(p2) == [AT_PHDR, a.phdr] + Flatten(p3);
    assert Flatten(p1) == [AT_PHENT, a.phent] + Flatten(p2);
    assert Flatten(p) == [AT_PHNUM, a.phnum] + Flatten(p1);
  }

  lemma {:induction false} VectorsParts(rw: WordSpace, rsp: nat, e: nat, x: nat, pa: seq<nat>, pe: seq<nat>, a: Aux)
    requires e == rsp + 8 * |pa| + 16
    requires rw(rsp) == Some(|pa|) && Seen(rw, rsp + 8, pa) && rw(e - 8) == Some(0)
    requires Seen(rw, e, pe + [0]) && Seen(rw, x, AuxWords(a)) && x == e + 8 * |pe| + 8 && x + 64 < WORD
    requires forall k :: 0 <= k < |pe| ==> pe[k] != 0
    ensures ReadVectors(rw, rsp) == Some(Vectors(pa, pe, AuxPairs(a)))
  {
    ReadWordsSeen(rw, rsp + 8, pa);
    UntilNullSeen(rw, e, pe);
    AuxFlatten(a);
    AuxSeen(rw, x, AuxPairs(a));
  }

  /** Words laid out as the builder does are read back as the vectors they hold. */
  lemma {:induction false} VectorsSeen(rw: WordSpace, rsp: nat, pa: seq<nat>, pe: seq<nat>, a: Aux)
    requires Seen(rw, rsp, VectorWords(pa, pe, a))
    requires rsp + 8 * (|pa| + |pe| + 13) <= WORD && forall k :: 0 <= k < |pe| ==> pe[k] != 0
    ensures ReadVectors(rw, rsp) == Some(Vectors(pa, pe, AuxPairs(a)))
  {
    var e := rsp + 8 * |pa| + 16;
    var tail := pe + [0] + AuxWords(a);
    var rest := [0] + tail;
    assert VectorWords(pa, pe, a) == [|pa|] + (pa + rest);
    SeenSplit(rw, rsp, [|pa|], pa + rest);
    SeenSplit(rw, rsp + 8, pa, rest);
    SeenHead(rw, rsp, [|pa|]);
    SeenHead(rw, e - 8, rest);
    assert rest[1..] == tail;
    SeenSplit(rw, e, pe + [0], AuxWords(a));
    VectorsParts(rw, rsp, e, e + 8 * |pe| + 8, pa, pe, a);
  }

  lemma {:induction false} WordThrough(rd: Space, rw: WordSpace, m: Ram, lo: nat, o: nat, v: nat, w: nat)
    requires Agrees(rd, m, lo) && Loads(rd, rw) && o + 8 <= |m| && v == lo + o && WordAt(m, o) == w
    ensures rw(v) == Some(w)
  {
    WordAgrees(rd, m, lo, o, v);
    assert LoadsAt(rd, rw, v);
  }

  /** The words ws stand at offset o of m. */
  ghost predicate WordsIn(m: Ram, o: nat, ws: seq<nat>)
  {
    o + 8 * |ws| <= |m| && forall k: nat {:trigger WordIn(m, o, ws, k)} :: k < |ws| ==> WordIn(m, o, ws, k)
  }

  predicate WordIn(m: Ram, o: nat, ws: seq<nat>, k: nat)
    requires k < |ws|
  {
    WordAt(m, o + 8 * k) == ws[k]
  }

  lemma {:induction false} WordsThrough(rd: Space, rw: WordSpace, m: Ram, lo: nat, o: nat, ws: seq<nat>, rsp: nat)
    requires Agrees(rd, m, lo) && Loads(rd, rw) && WordsIn(m, o, ws) && rsp == lo + o
    ensures Seen(rw, rsp, ws)
  {
    forall k | 0 <= k < |ws| ensures rw(rsp + 8 * k) == Some(ws[k]) {
      assert WordIn(m, o, ws, k);
      WordThrough(rd, rw, m, lo, o + 8 * k, rsp + 8 * k, ws[k]);
    }
  }

  predicate TextIn(m: Ram, p: nat, ss: seq<Text>, i: nat)
    requires Total(ss) <= p && i < |ss|
  {
    TextAt(m, Pointers(ss, p)[i], ss[i])
  }

  /** The strings ss stand in m, downwards from offset p. */
  ghost predicate TextsIn(m: Ram, p: nat, ss: seq<Text>)
    requires Total(ss) <= p
  {
    forall i: nat {:trigger TextIn(m, p, ss, i)} :: i < |ss| ==> TextIn(m, p, ss, i)
  }

  lemma {:induction false} TextsThrough(rd: Space, m: Ram, lo: nat, p: nat, ss: seq<Text>, q: nat)
    requires Agrees(rd, m, lo) && Total(ss) <= p && CStrings(ss) && TextsIn(m, p, ss)
    requires q == p + lo
    ensures ReadTexts(rd, Pointers(ss, q)) == Some(ss)
  {
    var ps, os := Pointers(ss, q), Pointers(ss, p);
    forall i | 0 <= i < |ps| ensures ps[i] == os[i] + lo { PointersShift(ss, p, lo, i); }
    forall i | 0 <= i < |ps| ensures ps[i] >= lo && TextAt(m, ps[i] - lo, ss[i]) {
      assert TextIn(m, p, ss, i);
    }
    TextsAgree(rd, m, lo, ps, ss);
  }

  /** m holds a start-up image whose words begin at offset o; the strings of envp end at the
      top of m, those of argv at p. */
  ghost predicate Image(m: Ram, o: nat, p: nat, argv: seq<Text>, envp: seq<Text>, ws: seq<nat>)
  {
    && Total(envp) <= |m| && p == |m| - Total(envp) && Total(argv) <= p
    && WordsIn(m, o, ws) && TextsIn(m, |m|, envp) && TextsIn(m, p, argv)
  }

  lemma {:induction false} BuiltImage(argv: seq<Text>, envp: seq<Text>, a: Aux, top: nat, m: Ram, o: nat, p: nat)
    requires StackFits(argv, envp) && TopOk(top) && AuxOk(a)
    requires m == Built(argv, envp, a, top) && o == Bottom(argv, envp) && p == STACK_SIZE - Total(envp)
    ensures Image(m, o, p, argv, envp, StackWords(argv, envp, a, top))
  {
    var ws := StackWords(argv, envp, a, top);
    WordsBound(argv, envp, a, top);
    WordsBelowStrings(argv, envp);
    forall k: nat | k < |ws| ensures WordIn(Built(argv, envp, a, top), o, ws, k) {
      PutWordsRead(ArgsPlaced(argv, envp), o, ws, k);
    }
    forall i: nat | i < |envp| ensures TextIn(Built(argv, envp, a, top), STACK_SIZE, envp, i) {
      EnvText(argv, envp, a, top, i);
    }
    forall i: nat | i < |argv| ensures TextIn(Built(argv, envp, a, top), p, argv, i) {
      ArgText(argv, envp, a, top, i);
    }
  }

  lemma {:induction false} PointersNonNull(ss: seq<Text>, top: nat)
    requires Total(ss) < top
    ensures forall k :: 0 <= k < |ss| ==> Pointers(ss, top)[k] != 0
  {
    forall k | 0 <= k < |ss| ensures Pointers(ss, top)[k] != 0 { PointersBound(ss, top, k); }
  }

  lemma {:induction false} StartupParts(rd: Space, rw: WordSpace, rsp: nat, x: Vectors, argv: seq<Text>,
                                        envp: seq<Text>,
                                        ta: Option<seq<Text>>, te: Option<seq<Text>>)
    requires ReadVectors(rw, rsp) == Some(x)
    requires ta == ReadTexts(rd, x.args) && te == ReadTexts(rd, x.envs) && ta == Some(argv) && te == Some(envp)
    ensures ReadStartup(rd, rw, rsp) == Some(Startup(argv, envp, x.auxv))
  {
  }

  lemma {:induction false} ImageReadsVectors(rd: Space, rw: WordSpace, m: Ram, lo: nat, o: nat, argv: seq<Text>,
                                             envp: seq<Text>,
                                             a: Aux, top: nat, rsp: nat) returns (x: Vectors)
    requires lo > 0 && top == |m| + lo && rsp == lo + o && Agrees(rd, m, lo) && Loads(rd, rw)
    requires Total(envp) + Total(argv) <= |m| && WordsIn(m, o, StackWords(argv, envp, a, top))
    ensures x == Vectors(Pointers(argv, top - Total(envp)), Pointers(envp, top), AuxPairs(a))
    ensures ReadVectors(rw, rsp) == Some(x)
  {
    PointersNonNull(envp, top);
    var ws := StackWords(argv, envp, a, top);
    WordsThrough(rd, rw, m, lo, o, ws, rsp);
    x := Vectors(Pointers(argv, top - Total(envp)), Pointers(envp, top), AuxPairs(a));
    VectorsSeen(rw, rsp, x.args, x.envs, a);
  }

  lemma {:induction false} ImageReadsTexts(rd: Space, m: Ram, lo: nat, p: nat, ss: seq<Text>, q: nat)
    returns (r: Option<seq<Text>>)
    requires Agrees(rd, m, lo) && Total(ss) <= p && CStrings(ss) && TextsIn(m, p, ss) && q == p + lo
    ensures r == ReadTexts(rd, Pointers(ss, q)) && r == Some(ss)
  {
    TextsThrough(rd, m, lo, p, ss, q);
    r := ReadTexts(rd, Pointers(ss, q));
  }

  lemma {:induction false} ImageReads(rd: Space, rw: WordSpace, m: Ram, lo: nat, o: nat, p: nat, argv: seq<Text>,
                                      envp: seq<Text>,
                                      a: Aux, top: nat, rsp: nat)
    requires lo > 0 && top == |m| + lo && rsp == lo + o && Agrees(rd, m, lo) && Loads(rd, rw)
    requires CStrings(argv) && CStrings(envp)
    requires Total(envp) + Total(argv) <= |m| && Image(m, o, p, argv, envp, StackWords(argv, envp, a, top))
    ensures ReadStartup(rd, rw, rsp) == Some(Startup(argv, envp, AuxPairs(a)))
  {
    var x := ImageReadsVectors(rd, rw, m, lo, o, argv, envp, a, top, rsp);
    var ta := ImageReadsTexts(rd, m, lo, p, argv, top - Total(envp));
    var te := ImageReadsTexts(rd, m, lo, |m|, envp, top);
    StartupParts(rd, rw, rsp, x, argv, envp, ta, te);
  }

  /** Round trip: whatever arguments the kernel starts a program with, the program finds them,
      its environment and the four auxiliary entries, in order and complete. */
  lemma {:induction false} StartupRoundTrip(rd: Space, rw: WordSpace, argv: seq<Text>, envp: seq<Text>, a: Aux,
                                            top: nat, rsp: nat,
                                            m: Ram, lo: nat)
    requires CStrings(argv) && CStrings(envp) && StackFits(argv, envp) && TopOk(top) && AuxOk(a) && Loads(rd, rw)
    requires rsp == StackPointer(argv, envp, top) && m == Built(argv, envp, a, top)
    requires lo == top - STACK_SIZE && Agrees(rd, m, lo)
    ensures ReadStartup(rd, rw, rsp) == Some(Startup(argv, envp, AuxPairs(a)))
  {
    var o, p := Bottom(argv, envp), STACK_SIZE - Total(envp);
    BuiltImage(argv, envp, a, top, m, o, p);
    ImageReads(rd, rw, m, lo, o, p, argv, envp, a, top, rsp);
  }
}
