/** Machine words and bytes: 64-bit values as naturals, little-endian encoding,
    the alignment macros of src/lib/stddef.h, and bitwise or on naturals. */
module Words {
  type Byte = b: int | 0 <= b < 256

  datatype Option<+T> = None | Some(value: T)

  /** The characters of a C string, without the terminator. */
  type Text = seq<Byte>

  function Min(a: nat, b: nat): nat { if a < b then a else b }

  function Zeros(n: nat): (d: seq<Byte>)
    ensures |d| == n && forall k :: 0 <= k < n ==> d[k] == 0
  {
    seq(n, k => 0)
  }

  predicate CString(s: Text) { forall k :: 0 <= k < |s| ==> s[k] != 0 }

  /** The text stands at o, with its NUL. */
  predicate TextAt(m: seq<Byte>, o: nat, s: Text)
  {
    o + |s| < |m| && m[o..o + |s|] == s && m[o + |s|] == 0
  }

  lemma {:induction false} TextKept(m: seq<Byte>, r: seq<Byte>, o: nat, s: Text)
    requires TextAt(m, o, s) && |r| == |m| && forall k :: o <= k <= o + |s| && k < |m| ==> r[k] == m[k]
    ensures TextAt(r, o, s)
  {
    assert r[o..o + |s|] == m[o..o + |s|];
  }

  /** What a program is told about its own image: struct auxval of src/lib/elf.h. */
  datatype Aux = Aux(entry: nat, phdr: nat, phent: nat, phnum: nat)

  predicate AuxOk(a: Aux) { a.entry < WORD && a.phdr < WORD && a.phent < WORD && a.phnum < WORD }

  const FRAME := 4096
  const WORD := 0x1_0000_0000_0000_0000

  function Power256(n: nat): (r: nat)
    ensures r >= 1
  {
    if n == 0 then 1 else 256 * Power256(n - 1)
  }

  /** The n low bytes of x, least significant first. */
  function Encode(x: nat, n: nat): (s: seq<Byte>)
    ensures |s| == n
  {
    if n == 0 then [] else [x % 256] + Encode(x / 256, n - 1)
  }

  function Decode(s: seq<Byte>): (x: nat)
    ensures x < Power256(|s|)
  {
    if s == [] then 0 else s[0] + 256 * Decode(s[1..])
  }

  lemma {:induction false} DecodeEncode(x: nat, n: nat)
    requires x < Power256(n)
    ensures Decode(Encode(x, n)) == x
  {
    if n > 0 {
      DecodeEncode(x / 256, n - 1);
      assert Encode(x, n)[1..] == Encode(x / 256, n - 1);
    }
  }

  lemma WordBound()
    ensures Power256(8) == WORD
  {
    assert Power256(4) == 0x1_0000_0000;
  }

  lemma {:induction false} DecodeZero(s: seq<Byte>)
    requires forall k :: 0 <= k < |s| ==> s[k] == 0
    ensures Decode(s) == 0
  {
    if s != [] { DecodeZero(s[1..]); }
  }

  /** ALIGN_UP and ALIGN_DOWN; the mask form of the macros agrees with this
      for the power-of-two alignments the kernel uses. */
  function AlignUp(n: nat, a: nat): (r: nat)
    requires a > 0
    ensures n <= r < n + a && r % a == 0
  {
    var q := (n + a - 1) / a;
    DivBounds(n + a - 1, a);
    MultipleMod(q, a);
    q * a
  }

  function AlignDown(n: nat, a: nat): (r: nat)
    requires a > 0
    ensures r <= n < r + a && r % a == 0
  {
    DivBounds(n, a);
    MultipleMod(n / a, a);
    n / a * a
  }

  lemma DivBounds(n: nat, a: nat)
    requires a > 0
    ensures n / a * a <= n < n / a * a + a
  {
    assert n == a * (n / a) + n % a;
  }

  lemma {:induction false} MultipleMod(q: nat, a: nat)
    requires a > 0
    ensures q * a % a == 0
  {
    if q > 0 {
      MultipleMod(q - 1, a);
      assert q * a == (q - 1) * a + a;
      AddModulus((q - 1) * a, a);
    } else {
      assert q * a == 0;
    }
  }

  lemma AddModulus(x: nat, a: nat)
    requires a > 0
    ensures (x + a) % a == x % a
  {
    var q, r := x / a, x % a;
    assert x == a * q + r;
    assert x + a == a * (q + 1) + r;
    UniqueRemainder(x + a, a, q + 1, r);
  }

  lemma MulMono(a: nat, x: nat, y: nat)
    requires x <= y
    ensures a * x <= a * y
  {
  }

  lemma UniqueRemainder(x: nat, a: nat, q: nat, r: nat)
    requires a > 0 && x == a * q + r && r < a
    ensures x / a == q && x % a == r
  {
    var q' := x / a;
    assert x == a * q' + x % a;
    if q' > q {
      MulMono(a, q + 1, q');
    } else if q' < q {
      MulMono(a, q' + 1, q);
    }
  }

  /** Bitwise or. */
  function BitOr(a: nat, b: nat): (r: nat)
  {
    if a == 0 then b
    else if b == 0 then a
    else 2 * BitOr(a / 2, b / 2) + (if a % 2 == 1 || b % 2 == 1 then 1 else 0)
  }

  function Power2(k: nat): (r: nat)
    ensures r >= 1
  {
    if k == 0 then 1 else 2 * Power2(k - 1)
  }

  lemma {:induction false} OrHalf(a: nat, b: nat)
    ensures BitOr(a, b) / 2 == BitOr(a / 2, b / 2)
    ensures BitOr(a, b) % 2 == (if a % 2 == 1 || b % 2 == 1 then 1 else 0)
  {
  }

  lemma {:induction false} OrZero(a: nat, b: nat)
    requires b == 0
    ensures BitOr(a, b) == a
  {
  }

  lemma {:induction false} OrOdd(a: nat, b: nat)
    requires b % 2 == 1
    ensures BitOr(a, b) % 2 == 1
  {
    OrHalf(a, b);
  }

  lemma {:induction false} OrRejoin(x: nat, y: nat, u: nat, v: nat)
    requires u < 2 && v < 2
    ensures BitOr(2 * x + u, 2 * y + v) == 2 * BitOr(x, y) + (if u == 1 || v == 1 then 1 else 0)
  {
    var a, b := 2 * x + u, 2 * y + v;
    OrHalf(a, b);
    assert a / 2 == x && b / 2 == y;
  }

  lemma {:induction false} OrStep(a: nat, b: nat, a1: nat, b1: nat, u: nat, v: nat, o: nat)
    requires a == 2 * a1 + u % 2 && b == 2 * b1 + v % 2
    requires BitOr(a1, b1) == o + BitOr(u / 2, v / 2)
    ensures BitOr(a, b) == 2 * o + BitOr(u, v)
  {
    OrRejoin(a1, b1, u % 2, v % 2);
    OrRejoin(u / 2, v / 2, u % 2, v % 2);
  }

  lemma {:induction false} OrBound(u: nat, v: nat, k: nat)
    requires u < Power2(k) && v < Power2(k)
    ensures BitOr(u, v) < Power2(k)
  {
    if k > 0 {
      OrBound(u / 2, v / 2, k - 1);
      OrHalf(u, v);
    }
  }

  lemma {:induction false} OrDouble(p: nat, x: nat, u: nat, y: nat, v: nat, a: nat, b: nat, o: nat)
    requires a == (2 * p) * x + u && b == (2 * p) * y + v
    requires BitOr(p * x + u / 2, p * y + v / 2) == p * o + BitOr(u / 2, v / 2)
    ensures BitOr(a, b) == (2 * p) * o + BitOr(u, v)
  {
    Regroup(p, x, u);
    Regroup(p, y, v);
    Regroup(p, o, 0);
    OrStep(a, b, p * x + u / 2, p * y + v / 2, u, v, p * o);
  }

  /** Or acts separately on the bits above and below any position. */
  lemma {:induction false} OrJoin(x: nat, u: nat, y: nat, v: nat, k: nat, a: nat, b: nat)
    requires u < Power2(k) && v < Power2(k)
    requires a == Power2(k) * x + u && b == Power2(k) * y + v
    ensures BitOr(a, b) == Power2(k) * BitOr(x, y) + BitOr(u, v)
    decreases k
  {
    if k == 0 {
      assert a == x && b == y;
    } else {
      var p := Power2(k - 1);
      OrJoin(x, u / 2, y, v / 2, k - 1, p * x + u / 2, p * y + v / 2);
      OrDouble(p, x, u, y, v, a, b, BitOr(x, y));
    }
  }

  lemma Regroup(p: nat, x: nat, u: nat)
    ensures 2 * (p * x + u / 2) + u % 2 == (2 * p) * x + u
  {
  }

  lemma {:induction false} PowerSum(i: nat, j: nat)
    ensures Power2(i + j) == Power2(i) * Power2(j)
  {
    if i > 0 { PowerSum(i - 1, j); }
  }

  lemma Powers()
    ensures Power2(12) == 4096 && Power2(40) == 0x100_0000_0000 && Power2(64) == WORD
  {
    assert Power2(4) == 16;
    assert Power2(8) == 256 by { PowerSum(4, 4); }
    assert Power2(12) == 4096 by { PowerSum(4, 8); }
    assert Power2(24) == 0x100_0000 by { PowerSum(12, 12); }
    assert Power2(40) == 0x100_0000_0000 by { PowerSum(12, 12); PowerSum(12, 4); PowerSum(24, 16); }
    PowerSum(24, 40);
  }
}
