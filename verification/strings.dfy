/** C strings in memory, and the tokenizer of src/lib/str.c that cuts them up in place. */
module Strings {
  import opened Words

  const SLASH: Byte := 47
  const DOT: Text := [46]

  // ----- Pieces of a text -----

  /** Up to the first slash. */
  function Head(t: Text): (r: Text)
    ensures |r| <= |t| && r == t[..|r|] && SLASH !in r && (|r| < |t| ==> t[|r|] == SLASH)
    decreases |t|
  {
    if t == [] || t[0] == SLASH then [] else [t[0]] + Head(t[1..])
  }

  /** The pieces between slashes; a text without any is one piece. */
  function Split(t: Text): (ps: seq<Text>)
    ensures ps != []
    decreases |t|
  {
    var h := Head(t);
    if |h| == |t| then [h] else [h] + Split(t[|h| + 1..])
  }

  function Join(ps: seq<Text>): Text
    requires ps != []
    decreases |ps|
  {
    if |ps| == 1 then ps[0] else ps[0] + [SLASH] + Join(ps[1..])
  }

  predicate Plain(ps: seq<Text>) { forall i :: 0 <= i < |ps| ==> SLASH !in ps[i] }

  lemma {:induction false} JoinSplit(t: Text)
    ensures Join(Split(t)) == t && Plain(Split(t))
    decreases |t|
  {
    var h := Head(t);
    if |h| < |t| {
      JoinSplit(t[|h| + 1..]);
      assert Split(t)[1..] == Split(t[|h| + 1..]);
    }
  }

  lemma HeadOf(h: Text, t: Text)
    requires SLASH !in h && |h| <= |t| && h == t[..|h|] && (|h| < |t| ==> t[|h|] == SLASH)
    ensures Head(t) == h
  {
    var g := Head(t);
    assert forall k :: 0 <= k < |h| ==> h[k] in h && h[k] == t[k];
    assert forall k :: 0 <= k < |g| ==> g[k] in g && g[k] == t[k];
  }

  lemma {:induction false} SplitJoin(ps: seq<Text>)
    requires ps != [] && Plain(ps)
    ensures Split(Join(ps)) == ps
    decreases |ps|
  {
    var t := Join(ps);
    if |ps| == 1 { HeadOf(ps[0], t); }
    else {
      SplitJoin(ps[1..]);
      HeadOf(ps[0], t);
      assert t[|ps[0]| + 1..] == Join(ps[1..]);
    }
  }

  // ----- Texts in memory -----

  /** The text at o, up to its NUL. */
  ghost predicate IsText(m: seq<Byte>, o: nat, t: Text)
  {
    TextAt(m, o, t) && CString(t)
  }

  method Strlen(m: array<Byte>, o: nat, ghost t: Text) returns (n: nat)
    requires IsText(m[..], o, t)
    ensures n == |t|
  {
    assert forall k :: 0 <= k < |t| ==> t[k] == m[..][o..o + |t|][k] == m[o + k];
    n := 0;
    while m[o + n] != 0
      invariant n <= |t|
      decreases |t| - n
    {
      n := n + 1;
    }
  }

  method Memcmp(a: seq<Byte>, b: seq<Byte>, n: nat) returns (r: int)
    requires n <= |a| && n <= |b|
    ensures r == 0 <==> a[..n] == b[..n]
    ensures r != 0 ==> exists k :: 0 <= k < n && a[..k] == b[..k] && a[k] != b[k] && (r < 0 <==> a[k] < b[k])
  {
    for i := 0 to n
      invariant a[..i] == b[..i]
    {
      if a[i] != b[i] { return if a[i] < b[i] then -1 else 1; }
      assert a[..i + 1] == a[..i] + [a[i]] && b[..i + 1] == b[..i] + [b[i]];
    }
    r := 0;
  }

  /** strtok over one buffer with the delimiter "/": the static cursor is a field. */
  class Tokenizer {
    const buf: array<Byte>
    var cursor: Option<nat>

    constructor (b: array<Byte>)
      ensures buf == b && cursor == None
    {
      buf, cursor := b, None;
    }

    /** The next token of the text rest at the cursor: its first piece, NUL-terminated in place, with the
        cursor moved behind the slash, or cleared when there is none. */
    method Next(start: Option<nat>, ghost rest: Text) returns (token: Option<nat>)
      requires start.Some? ==> IsText(buf[..], start.value, rest)
      requires start.None? && cursor.Some? ==> IsText(buf[..], cursor.value, rest)
      modifies this`cursor, buf
      ensures token == if start.Some? then start else old(cursor)
      ensures token == None ==> cursor == None && buf[..] == old(buf[..])
      ensures token.Some? ==> Cut(old(buf[..]), token.value, rest, buf[..], cursor)
    {
      if start.Some? { cursor := start; }
      if cursor.None? { return None; }
      var s := cursor.value;
      token := Some(s);
      ghost var o, was := s, buf[..];
      ghost var h := HeadInMemory(was, o, rest);
      while buf[s] != 0
        invariant o <= s <= o + h && buf[..] == was
        decreases o + h - s
      {
        if buf[s] == SLASH {
          buf[s] := 0;
          s := s + 1;
          cursor := Some(s);
          CutText(was, o, rest);
          assert buf[..] == was[o + h := 0];
          return;
        }
        s := s + 1;
      }
      cursor := None;
    }

    /** One call, its token put behind those found before. */
    method NextToken(start: Option<nat>, tokens: seq<nat>, ghost ps: seq<Text>, ghost o: nat, ghost r: Text)
      returns (more: seq<nat>)
      requires Some(o) == (if start.Some? then start else cursor) && IsText(buf[..], o, r)
      requires Found(buf[..], tokens, ps, Some(o)) && Left(ps, |tokens|, Some(r))
      modifies this`cursor, buf
      ensures Found(buf[..], more, ps, cursor) && Left(ps, |more|, Rest(r)) && At(buf[..], cursor, Rest(r))
    {
      var token := Next(start, r);
      FoundNext(old(buf[..]), buf[..], tokens, ps, o, r, cursor);
      more := tokens + [token.value];
    }

    /** Called until it answers NULL, strtok yields exactly the pieces of the text, each still there. */
    method All(o: nat, ghost text: Text) returns (tokens: seq<nat>)
      requires IsText(buf[..], o, text)
      modifies this`cursor, buf
      ensures |tokens| == |Split(text)| && cursor == None
      ensures forall i :: 0 <= i < |tokens| ==> IsText(buf[..], tokens[i], Split(text)[i])
    {
      ghost var ps, rest := Split(text), Rest(text);
      tokens := NextToken(Some(o), [], ps, o, text);
      while cursor.Some?
        invariant At(buf[..], cursor, rest) && Found(buf[..], tokens, ps, cursor) && Left(ps, |tokens|, rest)
        decreases if rest.None? then 0 else 1 + |rest.value|
      {
        ghost var r := rest.value;
        tokens := NextToken(None, tokens, ps, cursor.value, r);
        rest := Rest(r);
      }
    }
  }

  /** The cursor is at the text rest, or both are finished. */
  ghost predicate At(m: seq<Byte>, cursor: Option<nat>, rest: Option<Text>)
  {
    (cursor.Some? <==> rest.Some?) && (cursor.Some? ==> IsText(m, cursor.value, rest.value))
  }

  /** The pieces from k on are those of rest. */
  predicate Left(ps: seq<Text>, k: nat, rest: Option<Text>)
  {
    k <= |ps| && ps[k..] == if rest.None? then [] else Split(rest.value)
  }

  /** The tokens handed out so far are the first pieces, all of them before the cursor. */
  ghost predicate Found(m: seq<Byte>, tokens: seq<nat>, ps: seq<Text>, cursor: Option<nat>)
  {
    |tokens| <= |ps| && forall i :: 0 <= i < |tokens| ==>
      IsText(m, tokens[i], ps[i]) && (cursor.Some? ==> tokens[i] + |ps[i]| < cursor.value)
  }

  lemma FoundNext(m: seq<Byte>, m': seq<Byte>, tokens: seq<nat>, ps: seq<Text>, o: nat, r: Text, cursor: Option<nat>)
    requires Found(m, tokens, ps, Some(o)) && Left(ps, |tokens|, Some(r)) && IsText(m, o, r) && Cut(m, o, r, m', cursor)
    ensures Found(m', tokens + [o], ps, cursor) && Left(ps, |tokens| + 1, Rest(r)) && At(m', cursor, Rest(r))
  {
    var k := |tokens|;
    assert ps[k] == ps[k..][0] == Split(r)[0] == Head(r);
    assert ps[k + 1..] == ps[k..][1..] == Split(r)[1..];
    CutLeaves(m, o, r, m', cursor);
    forall i | 0 <= i < k ensures IsText(m', tokens[i], ps[i]) { TextKept(m, m', tokens[i], ps[i]); }
  }

  /** What is left of a text after its first piece and slash. */
  function Rest(t: Text): Option<Text>
  {
    if |Head(t)| == |t| then None else Some(t[|Head(t)| + 1..])
  }

  /** The first piece in memory: no slash and no NUL before its end, and one of them there. */
  lemma HeadInMemory(m: seq<Byte>, o: nat, rest: Text) returns (h: nat)
    requires IsText(m, o, rest)
    ensures h == |Head(rest)| && o + h < |m| && forall i :: o <= i < o + h ==> m[i] != SLASH && m[i] != 0
    ensures if h < |rest| then m[o + h] == SLASH else h == |rest| && Head(rest) == rest && m[o + h] == 0
  {
    h := |Head(rest)|;
    assert forall k :: 0 <= k < |rest| ==> rest[k] == m[o..o + |rest|][k] == m[o + k];
    forall i | o <= i < o + h ensures m[i] != SLASH && m[i] != 0 {
      assert m[i] == rest[i - o] && rest[i - o] == Head(rest)[i - o] && Head(rest)[i - o] in Head(rest);
    }
  }

  /** What one call does to the text rest at o: buffer m becomes m', and the cursor is left at the
      text after the first slash, if there is one. */
  ghost predicate Cut(m: seq<Byte>, o: nat, rest: Text, m': seq<Byte>, cursor: Option<nat>)
  {
    var n := |Head(rest)|;
    && IsText(m', o, Head(rest))
    && if n == |rest| then cursor == None && m' == m
       else cursor == Some(o + n + 1) && IsText(m', o + n + 1, rest[n + 1..]) && o + n < |m| && m' == m[o + n := 0]
  }

  lemma CutLeaves(m: seq<Byte>, o: nat, rest: Text, m': seq<Byte>, cursor: Option<nat>)
    requires Cut(m, o, rest, m', cursor)
    ensures IsText(m', o, Head(rest)) && At(m', cursor, Rest(rest))
  {
  }

  lemma CutText(m: seq<Byte>, o: nat, rest: Text)
    requires IsText(m, o, rest) && |Head(rest)| < |rest|
    ensures
      var n := |Head(rest)|;
      IsText(m[o + n := 0], o, Head(rest)) && IsText(m[o + n := 0], o + n + 1, rest[n + 1..])
  {
    var n := |Head(rest)|;
    var m' := m[o + n := 0];
    assert m'[o..o + n] == m[o..o + n] == m[o..o + |rest|][..n];
    assert m'[o + n + 1..o + |rest|] == m[o + n + 1..o + |rest|] == m[o..o + |rest|][n + 1..];
  }

  // ----- The last component of a path -----

  function Slashes(k: nat): (r: Text)
    ensures |r| == k && forall i :: 0 <= i < k ==> r[i] == SLASH
    decreases k
  {
    if k == 0 then [] else [SLASH] + Slashes(k - 1)
  }

  /** The last component stands at i and ends at end, once trailing slashes are cut: behind the last slash
      before end, where end is the length left, at least one. */
  predicate LastPart(t: Text, end: nat, i: nat)
  {
    && 0 < end <= |t| && i < end
    && (forall k :: end <= k < |t| ==> t[k] == SLASH) && (end > 1 ==> t[end - 1] != SLASH)
    && (forall k :: i <= k < end - 1 ==> t[k] != SLASH) && (i > 0 ==> t[i - 1] == SLASH)
  }

  function CutEnd(t: Text): (end: nat)
    requires t != []
    ensures 0 < end <= |t| && (forall k :: end <= k < |t| ==> t[k] == SLASH) && (end > 1 ==> t[end - 1] != SLASH)
    decreases |t|
  {
    if |t| > 1 && t[|t| - 1] == SLASH then CutEnd(t[..|t| - 1]) else |t|
  }

  /** Back from i to behind the nearest slash. */
  function CutStart(t: Text, i: nat): (s: nat)
    requires i < |t|
    ensures s <= i && (forall k :: s <= k < i ==> t[k] != SLASH) && (s > 0 ==> t[s - 1] == SLASH)
    decreases i
  {
    if i > 0 && t[i - 1] != SLASH then CutStart(t, i - 1) else i
  }

  /** The last component of a path; of the empty path, ".". */
  function BaseName(t: Text): Text
  {
    if t == [] then DOT else t[CutStart(t, CutEnd(t) - 1)..CutEnd(t)]
  }

  /** There is one last component. */
  lemma OnlyPart(t: Text, end: nat, i: nat)
    requires LastPart(t, end, i)
    ensures t != [] && end == CutEnd(t) && i == CutStart(t, end - 1)
  {
    assert end == CutEnd(t);
  }

  /** Trailing slashes become NULs; a path of slashes keeps one. */
  method TrimSlashes(s: array<Byte>, ghost t: Text) returns (end: nat)
    requires IsText(s[..], 0, t) && t != []
    modifies s
    ensures end == CutEnd(t)
    ensures forall k :: 0 <= k < s.Length ==> s[k] == if end <= k < |t| then 0 else old(s[k])
  {
    ghost var was := s[..];
    assert forall k :: 0 <= k < |t| ==> t[k] == was[0..|t|][k] == was[k];
    end := Strlen(s, 0, t);
    while end > 1 && s[end - 1] == SLASH
      invariant 0 < end <= |t| && forall k :: end <= k < |t| ==> t[k] == SLASH
      invariant forall k :: 0 <= k < s.Length ==> s[k] == if end <= k < |t| then 0 else was[k]
      decreases end
    {
      s[end - 1] := 0;
      end := end - 1;
    }
  }

  /** basename of the text at the start of s: trailing slashes become NULs, and the last component is left
      as a text of its own; None is the constant ".". */
  method Basename(s: array<Byte>, ghost t: Text) returns (at: Option<nat>)
    requires IsText(s[..], 0, t)
    modifies s
    ensures at.Some? <==> t != []
    ensures at.Some? ==> IsText(s[..], at.value, BaseName(t))
    ensures forall k :: 0 <= k < s.Length ==> s[k] == if t != [] && CutEnd(t) <= k < |t| then 0 else old(s[k])
  {
    ghost var was := s[..];
    assert forall k :: 0 <= k < |t| ==> t[k] == was[0..|t|][k] == was[k];
    if s[0] == 0 { return None; }
    var end := TrimSlashes(s, t);
    var i: nat := end - 1;
    while i > 0 && s[i - 1] != SLASH
      invariant i < end && forall k :: i <= k < end - 1 ==> t[k] != SLASH
      decreases i
    {
      i := i - 1;
    }
    OnlyPart(t, end, i);
    NameAt(s[..], t, end, i);
    at := Some(i);
  }

  /** With trailing slashes overwritten, the last component is a text of its own. */
  lemma NameAt(m: seq<Byte>, t: Text, end: nat, i: nat)
    requires LastPart(t, end, i) && CString(t) && |t| < |m|
    requires forall k :: 0 <= k <= |t| ==> m[k] == if end <= k then 0 else t[k]
    ensures IsText(m, i, t[i..end])
  {
    assert m[i..end] == t[i..end];
  }

  lemma LastPartAround(a: Text, j: Text, c: Text, last: Text, t: Text)
    requires (forall k :: 0 <= k < |a| ==> a[k] == SLASH) && (forall k :: 0 <= k < |c| ==> c[k] == SLASH)
    requires last != [] && SLASH !in last && |last| <= |j| && j[|j| - |last|..] == last
    requires (|last| < |j| ==> j[|j| - |last| - 1] == SLASH) && t == a + j + c
    ensures BaseName(t) == last
  {
    var n, p := |a| + |j|, |a| + |j| - |last|;
    assert t[p..n] == j[|j| - |last|..];
    forall k | p <= k < n ensures t[k] != SLASH { assert t[k] == t[p..n][k - p] == last[k - p] && last[k - p] in last; }
    if p > 0 { assert t[p - 1] == if |last| < |j| then j[|j| - |last| - 1] else a[p - 1]; }
    assert LastPart(t, n, p);
    OnlyPart(t, n, p);
  }

  /** For slash-joined pieces with a non-empty last one, whatever slashes stand before and after,
      that component is the last piece. */
  lemma {:induction false} BaseNameJoined(ps: seq<Text>, before: nat, after: nat, t: Text)
    requires ps != [] && Plain(ps) && ps[|ps| - 1] != [] && t == Slashes(before) + Join(ps) + Slashes(after)
    ensures BaseName(t) == ps[|ps| - 1]
  {
    JoinEnds(ps);
    LastPartAround(Slashes(before), Join(ps), Slashes(after), ps[|ps| - 1], t);
  }

  lemma {:induction false} JoinEnds(ps: seq<Text>)
    requires ps != []
    ensures
      var j, last := Join(ps), ps[|ps| - 1];
      |last| <= |j| && j[|j| - |last|..] == last
      && (|ps| > 1 ==> |last| < |j| && j[|j| - |last| - 1] == SLASH) && (|ps| == 1 ==> j == last)
    decreases |ps|
  {
    if |ps| > 1 { JoinEnds(ps[1..]); }
  }
}
