/** The stack builder of sched_user_thread as it runs: a pointer moving down through the
    kernel's alias of the stack, strings first, then words. */
module StackBuilder {
  import opened Words
  import opened PhysicalMemory
  import opened InitialStack

  lemma {:induction false} TotalAppend(ss: seq<Text>, s: Text)
    ensures Total(ss + [s]) == Total(ss) + |s| + 1
    decreases |ss|
  {
    if ss == [] {
      assert (ss + [s])[1..] == [];
    } else {
      assert (ss + [s])[1..] == ss[1..] + [s];
      TotalAppend(ss[1..], s);
    }
  }

  lemma {:induction false} PlaceAppend(m: Ram, ss: seq<Text>, s: Text, p: nat)
    requires Total(ss) + |s| + 1 <= p <= |m|
    ensures Total(ss + [s]) == Total(ss) + |s| + 1
    ensures Place(m, ss + [s], p) == Blit(Place(m, ss, p), p - Total(ss) - |s| - 1, s)
    decreases |ss|
  {
    TotalAppend(ss, s);
    if ss == [] {
      PlaceOne(m, s, p);
      assert ss + [s] == [s];
    } else {
      assert (ss + [s])[0] == ss[0] && (ss + [s])[1..] == ss[1..] + [s];
      var o := p - |ss[0]| - 1;
      PlaceAppend(Blit(m, o, ss[0]), ss[1..], s, o);
    }
  }

  lemma PlaceOne(m: Ram, s: Text, p: nat)
    requires |s| + 1 <= p <= |m|
    ensures Total([s]) == |s| + 1 && Place(m, [s], p) == Blit(m, p - |s| - 1, s)
  {
    assert [s][1..] == [];
  }

  lemma {:induction false} TotalPrefix(ss: seq<Text>, i: nat)
    requires i < |ss|
    ensures Total(ss[..i + 1]) == Total(ss[..i]) + |ss[i]| + 1 <= Total(ss)
    decreases |ss| - i
  {
    assert ss[..i + 1] == ss[..i] + [ss[i]];
    TotalAppend(ss[..i], ss[i]);
    if i + 1 < |ss| {
      TotalPrefix(ss, i + 1);
    } else {
      assert ss[..i + 1] == ss;
    }
  }

  lemma {:induction false} PointersAt(ss: seq<Text>, top: nat, i: nat)
    requires Total(ss) <= top && i < |ss|
    ensures Total(ss[..i + 1]) <= top && Pointers(ss, top)[i] == top - Total(ss[..i + 1])
    decreases |ss|
  {
    TotalPrefix(ss, i);
    if i == 0 {
      assert ss[..1][1..] == [];
    } else {
      assert ss[..i + 1][1..] == ss[1..][..i];
      PointersAt(ss[1..], top - |ss[0]| - 1, i - 1);
    }
  }

  lemma {:induction false} EncodeSplit(xs: seq<nat>, ys: seq<nat>)
    ensures EncodeAll(xs + ys) == EncodeAll(xs) + EncodeAll(ys)
    decreases |xs|
  {
    if xs == [] {
      assert xs + ys == ys;
    } else {
      assert (xs + ys)[0] == xs[0] && (xs + ys)[1..] == xs[1..] + ys;
      EncodeSplit(xs[1..], ys);
    }
  }

  lemma {:induction false} EncodeOne(w: nat)
    ensures EncodeAll([w]) == Encode(w, 8)
  {
    assert [w][1..] == [] && EncodeAll([]) == [];
  }

  /** Two writes side by side are one write, whichever comes first. */
  lemma BlitThen(m: Ram, o: nat, x: seq<Byte>, y: seq<Byte>)
    requires o + |x| + |y| <= |m|
    ensures Blit(m, o, x + y) == Blit(Blit(m, o, x), o + |x|, y) == Blit(Blit(m, o + |x|, y), o, x)
  {
    var a, b, c := Blit(m, o, x + y), Blit(Blit(m, o, x), o + |x|, y), Blit(Blit(m, o + |x|, y), o, x);
    forall k | 0 <= k < |m| ensures a[k] == b[k] == c[k] { }
  }

  /** Writing two blocks of words, in either order. */
  lemma {:induction false} PutWordsJoin(m: Ram, o: nat, p: nat, xs: seq<nat>, ys: seq<nat>, x: seq<Byte>, y: seq<Byte>)
    requires p == o + 8 * |xs| && p + 8 * |ys| <= |m| && x == EncodeAll(xs) && y == EncodeAll(ys)
    ensures PutWords(m, o, xs + ys) == Blit(Blit(m, p, y), o, x) == Blit(Blit(m, o, x), p, y)
  {
    EncodeSplit(xs, ys);
    BlitThen(m, o, x, y);
  }

  /** Words written below words. */
  lemma {:induction false} PutWordsBelow(m: Ram, o: nat, xs: seq<nat>, ys: seq<nat>)
    requires o + 8 * |xs| + 8 * |ys| <= |m|
    ensures PutWords(m, o, xs + ys) == PutWords(PutWords(m, o + 8 * |xs|, ys), o, xs)
  {
    PutWordsJoin(m, o, o + 8 * |xs|, xs, ys, EncodeAll(xs), EncodeAll(ys));
  }

  /** memcpy of a string's characters. */
  method CopyText(stack: array<Byte>, o: nat, s: Text)
    requires o + |s| <= stack.Length
    modifies stack
    ensures stack[..] == Blit(old(stack[..]), o, s)
  {
    var i := 0;
    while i < |s|
      invariant 0 <= i <= |s|
      invariant forall k :: 0 <= k < stack.Length ==>
        stack[k] == if o <= k < o + i then s[k - o] else old(stack[k])
    {
      stack[o + i] := s[i];
      i := i + 1;
    }
  }

  /** A 64-bit store. */
  method StoreWord(stack: array<Byte>, o: nat, w: nat)
    requires o + 8 <= stack.Length && w < WORD
    modifies stack
    ensures stack[..] == PutWords(old(stack[..]), o, [w])
  {
    EncodeOne(w);
    var x, i := w, 0;
    ghost var e := Encode(w, 8);
    while i < 8
      invariant 0 <= i <= 8 && e[i..] == Encode(x, 8 - i)
      invariant forall k :: 0 <= k < stack.Length ==>
        stack[k] == if o <= k < o + i then e[k - o] else old(stack[k])
    {
      assert e[i] == e[i..][0] == x % 256;
      assert e[i + 1..] == e[i..][1..];
      stack[o + i] := x % 256;
      x := x / 256;
      i := i + 1;
    }
  }

  lemma {:induction false} PlaceNext(m: Ram, ss: seq<Text>, p: nat, i: nat)
    requires Total(ss) <= p <= |m| && i < |ss| && Total(ss[..i]) <= p
    ensures Total(ss[..i + 1]) == Total(ss[..i]) + |ss[i]| + 1 <= p
    ensures Place(m, ss[..i + 1], p) == Blit(Place(m, ss[..i], p), p - Total(ss[..i]) - |ss[i]| - 1, ss[i])
  {
    TotalPrefix(ss, i);
    assert ss[..i + 1] == ss[..i] + [ss[i]];
    PlaceAppend(m, ss[..i], ss[i], p);
  }

  /** One of the two string loops: environment strings, then argument strings. */
  method PushTexts(stack: array<Byte>, ss: seq<Text>, p: nat) returns (q: nat)
    requires Total(ss) <= p <= stack.Length
    modifies stack
    ensures q == p - Total(ss) && stack[..] == Place(old(stack[..]), ss, p)
  {
    ghost var m := stack[..];
    q := p;
    var i := 0;
    while i < |ss|
      invariant 0 <= i <= |ss| && Total(ss[..i]) <= p && q == p - Total(ss[..i])
      invariant stack[..] == Place(m, ss[..i], p)
    {
      PlaceNext(m, ss, p, i);
      var length := |ss[i]|;
      q := q - length - 1;
      CopyText(stack, q, ss[i]);
      i := i + 1;
    }
    assert ss[..i] == ss;
  }

  /** One of the two pointer loops: recompute the string addresses from the user stack top. */
  method StorePointers(stack: array<Byte>, ss: seq<Text>, o: nat, top: nat) returns (rsp: nat)
    requires o + 8 * |ss| <= stack.Length && Total(ss) <= top < WORD
    modifies stack
    ensures rsp == top - Total(ss)
    ensures stack[..] == PutWords(old(stack[..]), o, Pointers(ss, top))
  {
    ghost var m, ps := stack[..], Pointers(ss, top);
    rsp := top;
    var i := 0;
    while i < |ss|
      invariant 0 <= i <= |ss| && Total(ss[..i]) <= top && rsp == top - Total(ss[..i])
      invariant stack[..] == PutWords(m, o, ps[..i])
    {
      PointerNext(ss, top, i);
      rsp := rsp - (|ss[i]| + 1);
      PutWordsNext(m, o, ps, i);
      assert rsp == ps[i];
      StoreWord(stack, o + 8 * i, rsp);
      i := i + 1;
    }
    assert ss[..i] == ss && ps[..i] == ps;
  }

  lemma {:induction false} PointerNext(ss: seq<Text>, top: nat, i: nat)
    requires Total(ss) <= top && i < |ss|
    ensures Total(ss[..i + 1]) == Total(ss[..i]) + |ss[i]| + 1 <= top
    ensures Pointers(ss, top)[i] == top - Total(ss[..i + 1])
  {
    TotalPrefix(ss, i);
    PointersAt(ss, top, i);
  }

  lemma {:induction false} PutWordsThen(m: Ram, o: nat, xs: seq<nat>, ys: seq<nat>)
    requires o + 8 * |xs| + 8 * |ys| <= |m|
    ensures PutWords(m, o, xs + ys) == PutWords(PutWords(m, o, xs), o + 8 * |xs|, ys)
  {
    PutWordsJoin(m, o, o + 8 * |xs|, xs, ys, EncodeAll(xs), EncodeAll(ys));
  }

  lemma {:induction false} PutWordsNext(m: Ram, o: nat, ws: seq<nat>, i: nat)
    requires o + 8 * |ws| <= |m| && i < |ws|
    ensures PutWords(m, o, ws[..i + 1]) == PutWords(PutWords(m, o, ws[..i]), o + 8 * i, [ws[i]])
  {
    assert ws[..i + 1] == ws[..i] + [ws[i]];
    PutWordsThen(m, o, ws[..i], [ws[i]]);
  }

  /** *(--stack) = w, below the words already pushed. */
  method PushWord(stack: array<Byte>, p: nat, w: nat, ghost m: Ram, ghost ws: seq<nat>) returns (q: nat)
    requires 8 <= p && p + 8 * |ws| <= stack.Length && w < WORD && |m| == stack.Length
    requires stack[..] == PutWords(m, p, ws)
    modifies stack
    ensures q == p - 8 && stack[..] == PutWords(m, q, [w] + ws)
  {
    q := p - 8;
    PutWordsBelow(m, q, [w], ws);
    StoreWord(stack, q, w);
  }

  /** A null word and, below it, a block of pointers. */
  method PushPointers(stack: array<Byte>, p: nat, ss: seq<Text>, top: nat, ghost m: Ram, ghost ws: seq<nat>)
    returns (q: nat, rsp: nat)
    requires 8 * |ss| + 8 <= p && p + 8 * |ws| <= stack.Length && |m| == stack.Length
    requires Total(ss) <= top < WORD && stack[..] == PutWords(m, p, ws)
    modifies stack
    ensures q == p - 8 - 8 * |ss| && rsp == top - Total(ss)
    ensures stack[..] == PutWords(m, q, Pointers(ss, top) + [0] + ws)
  {
    q := PushWord(stack, p, 0, m, ws);
    q := q - 8 * |ss|;
    rsp := StorePointers(stack, ss, q, top);
    PutWordsBelow(m, q, Pointers(ss, top), [0] + ws);
    AppendAssoc(Pointers(ss, top), [0], ws);
  }

  lemma AppendAssoc(x: seq<nat>, y: seq<nat>, z: seq<nat>)
    ensures x + (y + z) == x + y + z
  {
  }

  /** stack -= 2; stack[0] = kind, stack[1] = value. */
  method PushPair(stack: array<Byte>, p: nat, kind: nat, value: nat, ghost m: Ram, ghost ws: seq<nat>) returns (q: nat)
    requires 16 <= p && p + 8 * |ws| <= stack.Length && kind < WORD && value < WORD
    requires |m| == stack.Length && stack[..] == PutWords(m, p, ws)
    modifies stack
    ensures q == p - 16 && stack[..] == PutWords(m, q, [kind, value] + ws)
  {
    q := p - 16;
    PutWordsBelow(m, q, [kind, value], ws);
    PutWordsNext(stack[..], q, [kind, value], 1);
    assert [kind, value][..1] == [kind] && [kind, value][..2] == [kind, value];
    StoreWord(stack, q, kind);
    StoreWord(stack, q + 8, value);
  }

  /** The auxiliary vector. */
  method PushAux(stack: array<Byte>, p: nat, a: Aux) returns (q: nat)
    requires 80 <= p <= stack.Length && AuxOk(a)
    modifies stack
    ensures q == p - 80 && stack[..] == PutWords(old(stack[..]), q, AuxWords(a))
  {
    ghost var m := stack[..];
    assert PutWords(m, p, []) == m;
    q := PushPair(stack, p, 0, 0, m, []);
    ghost var w0 := [0, 0];
    assert [0, 0] + [] == w0;
    q := PushPair(stack, q, AT_ENTRY, a.entry, m, w0);
    ghost var w1 := [AT_ENTRY, a.entry] + w0;
    q := PushPair(stack, q, AT_PHDR, a.phdr, m, w1);
    ghost var w2 := [AT_PHDR, a.phdr] + w1;
    q := PushPair(stack, q, AT_PHENT, a.phent, m, w2);
    ghost var w3 := [AT_PHENT, a.phent] + w2;
    q := PushPair(stack, q, AT_PHNUM, a.phnum, m, w3);
  }

  /** Auxiliary vector, environment pointers, argument pointers and argc, below offset p. */
  method PushVectors(stack: array<Byte>, p: nat, argv: seq<Text>, envp: seq<Text>, a: Aux, top: nat) returns (q: nat)
    requires 8 * (13 + |argv| + |envp|) <= p <= stack.Length && AuxOk(a)
    requires Total(envp) + Total(argv) <= top < WORD && |argv| < WORD
    modifies stack
    ensures q == p - 8 * (13 + |argv| + |envp|) && |StackWords(argv, envp, a, top)| == 13 + |argv| + |envp|
    ensures stack[..] == PutWords(old(stack[..]), q, StackWords(argv, envp, a, top))
  {
    ghost var m := stack[..];
    ghost var pa, pe := Pointers(argv, top - Total(envp)), Pointers(envp, top);
    q := PushAux(stack, p, a);
    var old_rsp := top;
    ghost var w0 := AuxWords(a);
    q, old_rsp := PushPointers(stack, q, envp, old_rsp, m, w0);
    ghost var w1 := pe + [0] + w0;
    q, old_rsp := PushPointers(stack, q, argv, old_rsp, m, w1);
    ghost var w2 := pa + [0] + w1;
    q := PushWord(stack, q, |argv|, m, w2);
  }

  /** The whole builder, on zeroed stack memory; rsp is the program's initial stack pointer. */
  method Build(stack: array<Byte>, argv: seq<Text>, envp: seq<Text>, a: Aux, top: nat) returns (rsp: nat)
    requires stack.Length == STACK_SIZE && stack[..] == Zeros(STACK_SIZE)
    requires StackFits(argv, envp) && TopOk(top) && AuxOk(a)
    modifies stack
    ensures stack[..] == Built(argv, envp, a, top) && rsp == StackPointer(argv, envp, top)
  {
    var p := PushTexts(stack, envp, STACK_SIZE);
    p := PushTexts(stack, argv, p);
    ghost var m := stack[..];
    assert m == ArgsPlaced(argv, envp);
    p := AlignDown(p, 16);
    if (|argv| + |envp| + 1) % 2 != 0 {
      p := p - 8;
    }
    assert p == WordsEnd(argv, envp);
    p := PushVectors(stack, p, argv, envp, a, top);
    assert p == Bottom(argv, envp);
    rsp := top - (STACK_SIZE - p);
  }
}
