/** Physical memory as one flat sequence of bytes, seen by the kernel through its
    direct map, with little-endian 64-bit accesses. */
module PhysicalMemory {
  import opened Words

  type Ram = seq<Byte>

  /** memcpy of d to address a. */
  function Blit(m: Ram, a: nat, d: seq<Byte>): (r: Ram)
    requires a + |d| <= |m|
    ensures |r| == |m|
    ensures forall k :: 0 <= k < |m| ==> r[k] == if a <= k < a + |d| then d[k - a] else m[k]
  {
    seq(|m|, k requires 0 <= k < |m| => if a <= k < a + |d| then d[k - a] else m[k])
  }

  /** The aligned or unaligned word at a; out-of-range reads are 0. */
  function WordAt(m: Ram, a: nat): (w: nat)
    ensures w < WORD
  {
    WordBound();
    if a + 8 <= |m| then Decode(m[a..a + 8]) else 0
  }

  function PutWord(m: Ram, a: nat, w: nat): (r: Ram)
    requires a + 8 <= |m| && w < WORD
    ensures |r| == |m|
    ensures WordAt(r, a) == w
    ensures forall k :: 0 <= k < |m| && !(a <= k < a + 8) ==> r[k] == m[k]
  {
    var r := Blit(m, a, Encode(w, 8));
    assert r[a..a + 8] == Encode(w, 8);
    WordBound();
    DecodeEncode(w, 8);
    r
  }

  /** A word depends only on its own eight bytes. */
  lemma WordFrame(m: Ram, r: Ram, a: nat)
    requires |r| == |m|
    requires forall k :: a <= k < a + 8 && k < |m| ==> r[k] == m[k]
    ensures WordAt(r, a) == WordAt(m, a)
  {
    if a + 8 <= |m| {
      assert r[a..a + 8] == m[a..a + 8];
    }
  }

  lemma WordZero(m: Ram, a: nat)
    requires forall k :: a <= k < a + 8 && k < |m| ==> m[k] == 0
    ensures WordAt(m, a) == 0
  {
    if a + 8 <= |m| {
      DecodeZero(m[a..a + 8]);
    }
  }
}
