/** The physical frame allocator of src/memory/pmm.c: a bitmap with one bit per
    4096-byte frame, searched first-fit for a run of clear bits. */
module FrameAllocator {
  import opened Words

  // ----- Specification: a set of used frames below a limit -----

  predicate FreeRun(used: set<nat>, limit: nat, b: nat, n: nat)
  {
    1 <= b && b + n <= limit && forall f :: b <= f < b + n ==> f !in used
  }

  /** What the scan of pmm_malloc accepts as a base. For a request of no frames it
      stops at the first used frame that starts the scan or follows a used frame,
      and answers with the frame after it. */
  predicate Fits(used: set<nat>, limit: nat, b: nat, n: nat)
  {
    if n > 0 then FreeRun(used, limit, b, n)
    else 2 <= b <= limit && b - 1 in used && (b == 2 || b - 2 in used)
  }

  /** The lowest base at or after b that fits. */
  function FirstFrom(used: set<nat>, limit: nat, b: nat, n: nat): (r: Option<nat>)
    ensures r.Some? ==> b <= r.value && Fits(used, limit, r.value, n)
    ensures r.Some? ==> forall c :: b <= c < r.value ==> !Fits(used, limit, c, n)
    ensures r.None? ==> forall c :: b <= c ==> !Fits(used, limit, c, n)
    decreases limit + 1 - b
  {
    if b > limit then None
    else if Fits(used, limit, b, n) then Some(b)
    else FirstFrom(used, limit, b + 1, n)
  }

  function FirstFit(used: set<nat>, limit: nat, n: nat): (r: Option<nat>)
    ensures r.Some? ==> Fits(used, limit, r.value, n)
    ensures r.Some? ==> forall c :: 0 <= c < r.value ==> !Fits(used, limit, c, n)
    ensures r.None? ==> forall c :: 0 <= c ==> !Fits(used, limit, c, n)
  {
    FirstFrom(used, limit, 0, n)
  }

  function Run(b: nat, n: nat): (s: set<nat>)
    ensures forall f :: f in s <==> b <= f < b + n
    ensures |s| == n
    decreases n
  {
    if n == 0 then {} else Run(b, n - 1) + {b + n - 1}
  }

  /** The frames that pmm_malloc may still hand out. */
  function Spare(used: set<nat>, limit: nat): set<nat>
  {
    set f: nat | 1 <= f < limit && f !in used
  }

  lemma SpareFits(used: set<nat>, limit: nat)
    requires |Spare(used, limit)| >= 1
    ensures FirstFit(used, limit, 1).Some?
  {
    var f :| f in Spare(used, limit);
    assert Fits(used, limit, f, 1);
  }

  /** Taking one frame leaves all the others. */
  lemma SpareTaken(used: set<nat>, limit: nat, b: nat)
    requires FirstFit(used, limit, 1) == Some(b)
    ensures |Spare(used + Run(b, 1), limit)| == |Spare(used, limit)| - 1
  {
    assert Fits(used, limit, b, 1);
    assert Spare(used + Run(b, 1), limit) == Spare(used, limit) - {b};
  }

  // ----- The bit macros over bytes -----

  function TestBit(x: bv8, k: nat): bool requires k < 8 { (x >> k) & 1 == 1 }
  function SetBit(x: bv8, k: nat): bv8 requires k < 8 { x | (1 << k) }
  function ClearBit(x: bv8, k: nat): bv8 requires k < 8 { x & !(1 << k) }

  lemma SetLaw(x: bv8, k: nat, j: nat)
    requires k < 8 && j < 8
    ensures TestBit(SetBit(x, k), j) == (j == k || TestBit(x, j))
  {
    if k < 4 {
      if k == 0 {} else if k == 1 {} else if k == 2 {} else {}
    } else {
      if k == 4 {} else if k == 5 {} else if k == 6 {} else {}
    }
  }

  lemma ClearLaw(x: bv8, k: nat, j: nat)
    requires k < 8 && j < 8
    ensures TestBit(ClearBit(x, k), j) == (j != k && TestBit(x, j))
  {
    if k < 4 {
      if k == 0 {} else if k == 1 {} else if k == 2 {} else {}
    } else {
      if k == 4 {} else if k == 5 {} else if k == 6 {} else {}
    }
  }

  predicate Bit(b: seq<bv8>, f: nat)
  {
    f / 8 < |b| && TestBit(b[f / 8], f % 8)
  }

  function UsedFrames(b: seq<bv8>, limit: nat): (s: set<nat>)
    ensures forall f :: f in s <==> 0 <= f < limit && Bit(b, f)
  {
    set f: nat | 0 <= f < limit && Bit(b, f)
  }

  /** What the scan knows before it looks at frame, with available clear bits counted. */
  ghost predicate Scanned(used: set<nat>, limit: nat, n: nat, frame: nat, available: nat)
  {
    && 1 <= frame
    && (n > 0 ==>
          && available < n && available < frame
          && (forall f :: frame - available <= f < frame ==> f !in used)
          && (frame - available > 1 ==> frame - available - 1 in used))
    && (n == 0 ==> (available == 0 <==> frame == 1 || frame - 1 in used))
    && forall b: nat :: b + n <= frame ==> !Fits(used, limit, b, n)
  }

  lemma ScanStart(used: set<nat>, limit: nat, n: nat)
    ensures Scanned(used, limit, n, 1, 0)
  {
  }

  lemma ScanTaken(used: set<nat>, limit: nat, n: nat, frame: nat, available: nat)
    requires Scanned(used, limit, n, frame, available) && frame in used && available != n
    ensures Scanned(used, limit, n, frame + 1, 0)
  {
  }

  lemma ScanClear(used: set<nat>, limit: nat, n: nat, frame: nat, available: nat)
    requires Scanned(used, limit, n, frame, available) && frame !in used && available + 1 != n
    ensures Scanned(used, limit, n, frame + 1, available + 1)
  {
  }

  lemma ScanHit(used: set<nat>, limit: nat, n: nat, frame: nat, available: nat)
    requires Scanned(used, limit, n, frame, available) && frame < limit
    requires if frame in used then available == n else available + 1 == n
    ensures n <= frame && FirstFit(used, limit, n) == Some(frame + 1 - n)
  {
    var base := frame + 1 - n;
    assert Fits(used, limit, base, n);
  }

  lemma ScanMiss(used: set<nat>, limit: nat, n: nat, frame: nat, available: nat)
    requires Scanned(used, limit, n, frame, available) && limit <= frame
    ensures FirstFit(used, limit, n) == None
  {
  }

  class Pmm {
    const bitmap: array<bv8>
    var limit: nat

    /** A bitmap of the given size with every frame marked used. */
    constructor (bytes: nat, limit: nat)
      ensures fresh(bitmap) && bitmap.Length == bytes && this.limit == limit
      ensures forall f: nat :: f < 8 * bytes ==> Bit(bitmap[..], f)
    {
      this.limit := limit;
      bitmap := new bv8[bytes](i => 0xff);
    }

    ghost predicate Valid()
      reads this
    {
      limit <= 8 * bitmap.Length
    }

    ghost function Used(): (s: set<nat>)
      reads this, bitmap
    {
      UsedFrames(bitmap[..], limit)
    }

    method BitTest(f: nat) returns (b: bool)
      requires f < 8 * bitmap.Length
      ensures b == Bit(bitmap[..], f)
    {
      b := TestBit(bitmap[f / 8], f % 8);
    }

    method BitSet(f: nat)
      requires f < 8 * bitmap.Length
      modifies bitmap
      ensures forall g: nat :: Bit(bitmap[..], g) == (g == f || old(Bit(bitmap[..], g)))
    {
      bitmap[f / 8] := SetBit(bitmap[f / 8], f % 8);
      forall g: nat
        ensures Bit(bitmap[..], g) == (g == f || old(Bit(bitmap[..], g)))
      {
        SetLaw(old(bitmap[f / 8]), f % 8, g % 8);
      }
    }

    method BitClear(f: nat)
      requires f < 8 * bitmap.Length
      modifies bitmap
      ensures forall g: nat :: Bit(bitmap[..], g) == (g != f && old(Bit(bitmap[..], g)))
    {
      bitmap[f / 8] := ClearBit(bitmap[f / 8], f % 8);
      forall g: nat
        ensures Bit(bitmap[..], g) == (g != f && old(Bit(bitmap[..], g)))
      {
        ClearLaw(old(bitmap[f / 8]), f % 8, g % 8);
      }
    }

    /** The inner loop of pmm_malloc: marks the n frames that end at frame. */
    method SetRun(frame: nat, n: nat)
      requires n <= frame + 1 && frame < 8 * bitmap.Length
      modifies bitmap
      ensures forall g: nat ::
        Bit(bitmap[..], g) == (frame - n < g <= frame || old(Bit(bitmap[..], g)))
    {
      var i := 0;
      while i < n
        invariant 0 <= i <= n
        invariant forall g: nat ::
          Bit(bitmap[..], g) == (frame - i < g <= frame || old(Bit(bitmap[..], g)))
      {
        BitSet(frame - i);
        i := i + 1;
      }
    }

    /** The search loop of pmm_malloc; None means that the loop ran to the limit. */
    method FindRun(n: nat) returns (r: Option<nat>)
      requires Valid()
      ensures r == FirstFit(Used(), limit, n)
    {
      ghost var used := Used();
      var available := 0;
      var frame := 1;
      ScanStart(used, limit, n);
      while frame < limit
        invariant Scanned(used, limit, n, frame, available)
      {
        var taken := BitTest(frame);
        if !taken {
          available := available + 1;
        } else if available != n {
          ScanTaken(used, limit, n, frame, available);
          available := 0;
          frame := frame + 1;
          continue;
        }
        if available == n {
          ScanHit(used, limit, n, frame, if taken then available else available - 1);
          return Some(frame + 1 - n);
        }
        ScanClear(used, limit, n, frame, available - 1);
        frame := frame + 1;
      }
      ScanMiss(used, limit, n, frame, available);
      return None;
    }

    /** pmm_malloc. None is the null pointer. */
    method Malloc(n: nat) returns (r: Option<nat>)
      requires Valid()
      modifies bitmap
      ensures r == FirstFit(old(Used()), limit, n)
      ensures Used() == old(Used()) + (if r.Some? then Run(r.value, n) else {})
      ensures forall g: nat :: g >= limit ==> Bit(bitmap[..], g) == old(Bit(bitmap[..], g))
    {
      r := FindRun(n);
      if r.Some? {
        SetRun(r.value + n - 1, n);
      }
    }

    /** pmm_free of n frames starting at frame f. */
    method Free(f: nat, n: nat)
      requires Valid()
      requires f + n <= 8 * bitmap.Length
      modifies bitmap
      ensures Used() == old(Used()) - Run(f, n)
      ensures forall g: nat :: Bit(bitmap[..], g) == (!(f <= g < f + n) && old(Bit(bitmap[..], g)))
    {
      var i := f;
      while i < f + n
        invariant f <= i <= f + n
        invariant forall g: nat :: Bit(bitmap[..], g) == (!(f <= g < i) && old(Bit(bitmap[..], g)))
      {
        BitClear(i);
        i := i + 1;
      }
    }
  }
}
