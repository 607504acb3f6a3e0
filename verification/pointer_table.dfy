/** The hash table as it is: an entry holds where its key stands, not the key. The bytes are compared at every
    search, so what a search finds depends on what memory holds then. */
module PointerTable {
  import opened Words
  import HT = HashTable

  /** Where a key stands: a string constant of the kernel, or bytes of memory. */
  datatype Key = Lit(text: Text) | Mem(at: nat, len: nat)

  datatype Slot = Slot(key: Key, val: nat)

  type Table = seq<seq<Slot>>

  /** The key's bytes now. */
  function Spelt(ram: seq<Byte>, k: Key): Text
  {
    match k
    case Lit(t) => t
    case Mem(a, n) => if a + n <= |ram| then ram[a..a + n] else []
  }

  function ReadChain(ram: seq<Byte>, c: seq<Slot>): (r: seq<HT.Entry>)
    ensures |r| == |c| && forall i :: 0 <= i < |c| ==> r[i] == HT.Entry(Spelt(ram, c[i].key), c[i].val)
  {
    seq(|c|, i requires 0 <= i < |c| => HT.Entry(Spelt(ram, c[i].key), c[i].val))
  }

  /** The table with its keys read out. */
  function Read(ram: seq<Byte>, b: Table): (r: seq<seq<HT.Entry>>)
    ensures |r| == |b| && forall i :: 0 <= i < |b| ==> r[i] == ReadChain(ram, b[i])
  {
    seq(|b|, i requires 0 <= i < |b| => ReadChain(ram, b[i]))
  }

  /** hashmap_get. */
  function Get(ram: seq<Byte>, b: Table, key: Text): nat
    requires |b| > 0
  {
    HT.Lookup(Read(ram, b), key)
  }

  function Found(ram: seq<Byte>, b: Table, key: Text): (j: nat)
    requires |b| > 0
    ensures j <= |b[HT.Index(key, |b|)]|
  {
    HT.Seek(ReadChain(ram, b[HT.Index(key, |b|)]), key)
  }

  /** hashmap_set: an entry that is found gets the value and keeps its own key; a new one keeps where the
      caller's key stands. */
  function Set(ram: seq<Byte>, b: Table, k: Key, val: nat): (r: Table)
    requires |b| > 0
    ensures |r| == |b|
  {
    var i, j := HT.Index(Spelt(ram, k), |b|), Found(ram, b, Spelt(ram, k));
    b[i := if j < |b[i]| then b[i][j := b[i][j].(val := val)] else b[i] + [Slot(k, val)]]
  }

  /** While memory stays as it is, setting through pointers is setting with values. */
  lemma SetReads(ram: seq<Byte>, b: Table, k: Key, val: nat)
    requires |b| > 0
    ensures Read(ram, Set(ram, b, k, val)) == HT.Stored(Read(ram, b), Spelt(ram, k), val)
  {
    var key := Spelt(ram, k);
    var i, j := HT.Index(key, |b|), Found(ram, b, key);
    var c := Set(ram, b, k, val)[i];
    assert ReadChain(ram, c) == HT.Put(ReadChain(ram, b[i]), key, val);
  }

  /** All keys are constants. */
  predicate Literal(b: Table) { forall i: nat, j: nat :: i < |b| && j < |b[i]| ==> b[i][j].key.Lit? }

  lemma LiteralSame(ram: seq<Byte>, ram': seq<Byte>, b: Table)
    requires Literal(b)
    ensures Read(ram', b) == Read(ram, b)
  {
    forall i: nat | i < |b| ensures Read(ram', b)[i] == Read(ram, b)[i] {
      forall j: nat | j < |b[i]| ensures Read(ram', b)[i][j] == Read(ram, b)[i][j] { assert b[i][j].key.Lit?; }
    }
  }

  // ----- Whole runs -----

  function Filled(ram: seq<Byte>, n: nat, ops: seq<(Key, nat)>): (b: Table)
    requires n > 0
    ensures |b| == n
    decreases |ops|
  {
    if ops == [] then Blank(n)
    else
      var last := ops[|ops| - 1];
      Set(ram, Filled(ram, n, ops[..|ops| - 1]), last.0, last.1)
  }

  function Blank(n: nat): Table { seq(n, _ => [Slot(Lit([]), 0)]) }

  function SpeltOps(ram: seq<Byte>, ops: seq<(Key, nat)>): (r: seq<(Text, nat)>)
    ensures |r| == |ops| && forall i :: 0 <= i < |ops| ==> r[i] == (Spelt(ram, ops[i].0), ops[i].1)
  {
    seq(|ops|, i requires 0 <= i < |ops| => (Spelt(ram, ops[i].0), ops[i].1))
  }

  lemma BlankReads(ram: seq<Byte>, n: nat)
    ensures Read(ram, Blank(n)) == HT.Fresh(n)
  {
    var a, b := Read(ram, Blank(n)), HT.Fresh(n);
    forall i | 0 <= i < n ensures a[i] == b[i] { assert a[i] == [HT.Entry([], 0)]; }
  }

  lemma {:induction false} FilledReads(ram: seq<Byte>, n: nat, ops: seq<(Key, nat)>)
    requires n > 0
    ensures Read(ram, Filled(ram, n, ops)) == HT.Table(n, SpeltOps(ram, ops))
    decreases |ops|
  {
    var so := SpeltOps(ram, ops);
    if ops == [] { BlankReads(ram, n); }
    else {
      var front := ops[..|ops| - 1];
      FilledReads(ram, n, front);
      assert so[..|so| - 1] == SpeltOps(ram, front);
      SetReads(ram, Filled(ram, n, front), ops[|ops| - 1].0, ops[|ops| - 1].1);
    }
  }

  /** Where memory still holds the keys that were set, the table is the map of the last values set. */
  lemma {:induction false} FilledIsMap(ram: seq<Byte>, ram': seq<Byte>, n: nat, ops: seq<(Key, nat)>, key: Text)
    requires n > 0 && forall i :: 0 <= i < |ops| ==> Spelt(ram', ops[i].0) == Spelt(ram, ops[i].0)
    ensures Get(ram', Filled(ram, n, ops), key) == HT.LastSet(SpeltOps(ram, ops), key)
  {
    FilledSame(ram, ram', n, ops);
    FilledReads(ram', n, ops);
    assert SpeltOps(ram', ops) == SpeltOps(ram, ops);
    HT.TableIsMap(n, SpeltOps(ram, ops), key);
  }

  lemma {:induction false} FilledSame(ram: seq<Byte>, ram': seq<Byte>, n: nat, ops: seq<(Key, nat)>)
    requires n > 0 && forall i :: 0 <= i < |ops| ==> Spelt(ram', ops[i].0) == Spelt(ram, ops[i].0)
    ensures Filled(ram', n, ops) == Filled(ram, n, ops)
    decreases |ops|
  {
    if ops != [] {
      var front, last := ops[..|ops| - 1], ops[|ops| - 1];
      FilledSame(ram, ram', n, front);
      FilledReads(ram, n, front);
      FilledReads(ram', n, front);
      assert SpeltOps(ram', front) == SpeltOps(ram, front);
      SameSet(ram, ram', Filled(ram, n, front), last.0, last.1);
    }
  }

  lemma SameSet(ram: seq<Byte>, ram': seq<Byte>, b: Table, k: Key, val: nat)
    requires |b| > 0 && Read(ram', b) == Read(ram, b) && Spelt(ram', k) == Spelt(ram, k)
    ensures Set(ram', b, k, val) == Set(ram, b, k, val)
  {
    var i := HT.Index(Spelt(ram, k), |b|);
    assert Read(ram', b)[i] == Read(ram, b)[i];
  }

  // ----- When a search is sure of its answer -----

  /** ram' differs from ram in open frames only. */
  ghost predicate Outside(ram: seq<Byte>, ram': seq<Byte>, open: set<nat>)
  {
    |ram'| == |ram| && forall a: nat :: a < |ram| && a / FRAME !in open ==> ram'[a] == ram[a]
  }

  /** No byte of the key can be changed. */
  ghost predicate Firm(k: Key, open: set<nat>)
  {
    k.Mem? ==> forall b: nat :: k.at <= b < k.at + k.len ==> b / FRAME !in open
  }

  /** The key can be made to spell text. */
  ghost predicate Pliable(ram: seq<Byte>, k: Key, open: set<nat>, text: Text)
  {
    match k
    case Lit(t) => t == text
    case Mem(a, n) =>
      n == |text| && a + n <= |ram| && forall b: nat :: b < n ==> ram[a + b] == text[b] || (a + b) / FRAME in open
  }

  /** Every bucket starts with its zeroed entry, and no two entries of a bucket have one value. */
  predicate TableOk(b: Table) { |b| > 0 && forall i: nat :: i < |b| ==> ChainOk(b[i]) }

  predicate ChainOk(c: seq<Slot>)
  {
    && c != [] && c[0] == Slot(Lit([]), 0)
    && forall i: nat, j: nat :: i < j < |c| ==> c[i].val != c[j].val
  }

  /** No entry before the one found can come to spell the key, and that one goes on doing so. */
  ghost predicate Sure(ram: seq<Byte>, b: Table, open: set<nat>, key: Text)
    requires |b| > 0
  {
    var c, j := b[HT.Index(key, |b|)], Found(ram, b, key);
    (forall i: nat :: i < j && i < |c| ==> !Pliable(ram, c[i].key, open, key)) && (j < |c| ==> Firm(c[j].key, open))
  }

  lemma FirmStays(ram: seq<Byte>, ram': seq<Byte>, k: Key, open: set<nat>)
    requires Firm(k, open) && Outside(ram, ram', open)
    ensures Spelt(ram', k) == Spelt(ram, k)
  {
    if k.Mem? && k.at + k.len <= |ram| {
      assert forall b: nat :: k.at <= b < k.at + k.len ==> ram'[b] == ram[b];
    }
  }

  lemma SpellsIfPliable(ram: seq<Byte>, ram': seq<Byte>, k: Key, open: set<nat>, text: Text)
    requires Outside(ram, ram', open) && Spelt(ram', k) == text && text != []
    ensures Pliable(ram, k, open, text)
  {
    if k.Mem? {
      forall b: nat | b < k.len ensures ram[k.at + b] == text[b] || (k.at + b) / FRAME in open {
        assert text[b] == ram'[k.at + b];
      }
    }
  }

  lemma SureStays(ram: seq<Byte>, ram': seq<Byte>, b: Table, open: set<nat>, key: Text)
    requires |b| > 0 && key != [] && Outside(ram, ram', open) && Sure(ram, b, open, key)
    ensures Found(ram', b, key) == Found(ram, b, key) && Get(ram', b, key) == Get(ram, b, key)
  {
    var c, j := b[HT.Index(key, |b|)], Found(ram, b, key);
    var r := ReadChain(ram', c);
    forall i: nat | i < j ensures r[i].key != key {
      if Spelt(ram', c[i].key) == key { SpellsIfPliable(ram, ram', c[i].key, open, key); }
    }
    if j < |c| { FirmStays(ram, ram', c[j].key, open); }
    HT.SeekIs(r, key, j);
  }

  /** Memory with the key made to spell text. */
  function Respelt(ram: seq<Byte>, a: nat, text: Text): (r: seq<Byte>)
    requires a + |text| <= |ram|
    ensures |r| == |ram| && r[a..a + |text|] == text
    ensures forall k: nat :: k < |ram| && !(a <= k < a + |text|) ==> r[k] == ram[k]
  {
    ram[..a] + text + ram[a + |text|..]
  }

  lemma RespeltOutside(ram: seq<Byte>, k: Key, open: set<nat>, text: Text, r: seq<Byte>)
    requires k.Mem? && Pliable(ram, k, open, text) && r == Respelt(ram, k.at, text)
    ensures Outside(ram, r, open) && Spelt(r, k) == text
  {
    forall b: nat | b < |ram| && b / FRAME !in open ensures r[b] == ram[b] {
      if k.at <= b < k.at + k.len {
        var o := b - k.at;
        assert ram[k.at + o] == text[o] && r[k.at..k.at + |text|][o] == text[o];
      }
    }
  }

  /** Another answer can be had: an earlier entry made to match, or the one found spoilt. */
  lemma Disturb(ram: seq<Byte>, b: Table, open: set<nat>, key: Text) returns (r: seq<Byte>)
    requires TableOk(b) && key != [] && !Sure(ram, b, open, key)
    ensures Outside(ram, r, open) && Get(r, b, key) != Get(ram, b, key)
  {
    var c, j := b[HT.Index(key, |b|)], Found(ram, b, key);
    assert ChainOk(c);
    if i: nat :| i < j && i < |c| && Pliable(ram, c[i].key, open, key) {
      assert ReadChain(ram, c)[i].key != key;
      r := Respelt(ram, c[i].key.at, key);
      RespeltOutside(ram, c[i].key, open, key, r);
      EarlierMatch(ram, r, b, key, i);
    } else {
      r := Spoil(ram, c[j].key, open);
      SpoiltMiss(ram, r, b, key);
    }
  }

  lemma EarlierMatch(ram: seq<Byte>, r: seq<Byte>, b: Table, key: Text, i: nat)
    requires TableOk(b) && key != [] && i < Found(ram, b, key) && i < |b[HT.Index(key, |b|)]|
    requires Spelt(r, b[HT.Index(key, |b|)][i].key) == key
    ensures Get(r, b, key) != Get(ram, b, key)
  {
    var c := b[HT.Index(key, |b|)];
    assert ChainOk(c);
    assert ReadChain(r, c)[i].key == key && ReadChain(r, c)[0].key == [];
    assert 0 < Found(r, b, key) <= i;
    assert c[0].val != c[Found(r, b, key)].val;
  }

  lemma SpoiltMiss(ram: seq<Byte>, r: seq<Byte>, b: Table, key: Text)
    requires TableOk(b) && key != [] && Found(ram, b, key) < |b[HT.Index(key, |b|)]|
    requires Spelt(r, b[HT.Index(key, |b|)][Found(ram, b, key)].key) != key
    ensures Get(r, b, key) != Get(ram, b, key)
  {
    var c, j := b[HT.Index(key, |b|)], Found(ram, b, key);
    assert ChainOk(c);
    assert ReadChain(ram, c)[0].key == [] && j > 0;
    assert c[0].val != c[j].val && Found(r, b, key) != j;
  }

  /** A key that is not firm can be spoilt. */
  lemma Spoil(ram: seq<Byte>, k: Key, open: set<nat>) returns (r: seq<Byte>)
    requires !Firm(k, open) && Spelt(ram, k) != []
    ensures Outside(ram, r, open) && Spelt(r, k) != Spelt(ram, k)
  {
    var b: nat :| k.at <= b < k.at + k.len && b / FRAME in open;
    r := ram[b := if ram[b] == 0 then 1 else 0];
    assert Spelt(r, k)[b - k.at] == r[b] && Spelt(ram, k)[b - k.at] == ram[b];
  }

  /** The exact condition: whatever is written to the open frames, the search gives the answer it gives now,
      if and only if it is sure of it. */
  lemma GetSureExactly(ram: seq<Byte>, b: Table, open: set<nat>, key: Text)
    requires TableOk(b) && key != []
    ensures (forall r :: Outside(ram, r, open) ==> Get(r, b, key) == Get(ram, b, key)) <==> Sure(ram, b, open, key)
  {
    if Sure(ram, b, open, key) {
      forall r | Outside(ram, r, open) ensures Get(r, b, key) == Get(ram, b, key) { SureStays(ram, r, b, open, key); }
    } else {
      var r := Disturb(ram, b, open, key);
      assert Outside(ram, r, open) && Get(r, b, key) != Get(ram, b, key);
    }
  }
}
