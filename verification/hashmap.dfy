/** The chained hash table of src/lib/hashmap.c. Each bucket is an array slot holding a zeroed entry,
    followed by a chain of added entries; the empty key matches the zeroed entry of its bucket. */
module HashTable {
  import opened Words

  datatype Entry = Entry(key: Text, val: nat)

  /** 33 h + c, in 64 bits, over the bytes of the key. */
  function Hash(key: Text): (h: nat)
    ensures h < WORD
    decreases |key|
  {
    if key == [] then 5381 else (33 * Hash(key[..|key| - 1]) + key[|key| - 1]) % WORD
  }

  function Index(key: Text, n: nat): (i: nat)
    requires n > 0
    ensures i < n
  {
    Hash(key) % n
  }

  /** Position of the first entry with this key. */
  function Seek(chain: seq<Entry>, key: Text): (j: nat)
    ensures j <= |chain| && (j < |chain| ==> chain[j].key == key) && forall k :: 0 <= k < j ==> chain[k].key != key
    decreases |chain|
  {
    if chain == [] then 0 else if chain[0].key == key then 0 else 1 + Seek(chain[1..], key)
  }

  /** Bucket i: the zeroed entry, then distinct non-empty keys that hash to i. */
  ghost predicate ChainOk(chain: seq<Entry>, i: nat, n: nat)
    requires n > 0
  {
    && chain != [] && chain[0].key == []
    && (forall j :: 0 < j < |chain| ==> chain[j].key != [] && Index(chain[j].key, n) == i)
    && forall j, k :: 0 <= j < k < |chain| ==> chain[j].key != chain[k].key
  }

  ghost predicate Buckets(b: seq<seq<Entry>>) { |b| > 0 && forall i: nat :: i < |b| ==> ChainOk(b[i], i, |b|) }

  /** What the table holds for a key; 0 is NULL. */
  function Lookup(b: seq<seq<Entry>>, key: Text): nat
    requires |b| > 0
  {
    var chain := b[Index(key, |b|)];
    var j := Seek(chain, key);
    if j < |chain| then chain[j].val else 0
  }

  /** Set on the buckets. */
  function Stored(b: seq<seq<Entry>>, key: Text, val: nat): seq<seq<Entry>>
    requires |b| > 0
  {
    b[Index(key, |b|) := Put(b[Index(key, |b|)], key, val)]
  }

  lemma SeekIs(chain: seq<Entry>, key: Text, j: nat)
    requires j <= |chain| && (j < |chain| ==> chain[j].key == key) && forall k :: 0 <= k < j ==> chain[k].key != key
    ensures Seek(chain, key) == j
  {
  }

  /** The chain with key set to val. */
  function Put(chain: seq<Entry>, key: Text, val: nat): seq<Entry>
  {
    var j := Seek(chain, key);
    if j < |chain| then chain[j := Entry(key, val)] else chain + [Entry(key, val)]
  }

  lemma PutOk(chain: seq<Entry>, i: nat, n: nat, key: Text, val: nat)
    requires n > 0 && ChainOk(chain, i, n) && Index(key, n) == i
    ensures ChainOk(Put(chain, key, val), i, n)
  {
    var c, j := Put(chain, key, val), Seek(chain, key);
    assert forall k :: 0 <= k < |chain| ==> c[k].key == chain[k].key;
  }

  lemma StoredOk(b: seq<seq<Entry>>, key: Text, val: nat)
    requires Buckets(b)
    ensures Buckets(Stored(b, key, val))
  {
    var c := Stored(b, key, val);
    PutOk(b[Index(key, |b|)], Index(key, |b|), |b|, key, val);
    forall k: nat | k < |c| ensures ChainOk(c[k], k, |c|) { assert ChainOk(b[k], k, |b|); }
  }

  /** A stored value is found again, and no other key's value changes. */
  lemma StoredLookup(b: seq<seq<Entry>>, key: Text, val: nat, other: Text)
    requires |b| > 0
    ensures Lookup(Stored(b, key, val), other) == if other == key then val else Lookup(b, other)
  {
    var i, c := Index(key, |b|), Stored(b, key, val);
    var j := Seek(b[i], key);
    if Index(other, |b|) == i {
      if other == key { SeekIs(c[i], key, j); }
      else {
        var k := Seek(b[i], other);
        SeekIs(c[i], other, if k < |b[i]| then k else |c[i]|);
      }
    }
  }

  // ----- Counting -----

  /** The non-empty keys present. */
  function Keys(b: seq<seq<Entry>>): set<Text>
  {
    set i, j | 0 <= i < |b| && 0 < j < |b[i]| :: b[i][j].key
  }

  predicate Holds(b: seq<seq<Entry>>, key: Text)
    requires |b| > 0
  {
    Seek(b[Index(key, |b|)], key) < |b[Index(key, |b|)]|
  }

  /** A key is present exactly when a search from its own bucket finds it. */
  lemma KeysHeld(b: seq<seq<Entry>>, key: Text)
    requires Buckets(b) && key != []
    ensures key in Keys(b) <==> Holds(b, key)
  {
    var i := Index(key, |b|);
    assert ChainOk(b[i], i, |b|);
    if key in Keys(b) {
      var k: nat, j: nat :| k < |b| && 0 < j < |b[k]| && b[k][j].key == key;
      assert ChainOk(b[k], k, |b|);
    }
    if Holds(b, key) {
      var j := Seek(b[i], key);
      assert b[i][j].key == key;
    }
  }

  lemma StoredKeys(b: seq<seq<Entry>>, key: Text, val: nat)
    requires Buckets(b) && key != []
    ensures Keys(Stored(b, key, val)) == Keys(b) + {key}
  {
    var c := Stored(b, key, val);
    StoredOk(b, key, val);
    forall other: Text | other != [] ensures other in Keys(c) <==> other in Keys(b) + {key} {
      KeysHeld(b, other);
      KeysHeld(c, other);
      HeldAfter(b, key, val, other);
    }
    NoEmptyKey(b);
    NoEmptyKey(c);
  }

  lemma NoEmptyKey(b: seq<seq<Entry>>)
    requires Buckets(b)
    ensures [] !in Keys(b)
  {
    forall i: nat, j: nat | i < |b| && 0 < j < |b[i]| ensures b[i][j].key != [] { assert ChainOk(b[i], i, |b|); }
  }

  lemma HeldAfter(b: seq<seq<Entry>>, key: Text, val: nat, other: Text)
    requires Buckets(b)
    ensures Holds(Stored(b, key, val), other) <==> Holds(b, other) || other == key
  {
    var i, c := Index(key, |b|), Stored(b, key, val);
    assert ChainOk(b[i], i, |b|);
    if Index(other, |b|) == i {
      var k := Seek(b[i], other);
      if other == key { SeekIs(c[i], key, k); } else { SeekIs(c[i], other, if k < |b[i]| then k else |c[i]|); }
    }
  }

  // ----- The table in place -----

  class HashMap {
    const entries: array<seq<Entry>>
    var items: nat

    ghost predicate Valid()
      reads this, entries
    {
      Buckets(entries[..]) && items == |Keys(entries[..])|
    }

    constructor (n: nat)
      requires n > 0
      ensures Valid() && fresh(entries) && entries[..] == Fresh(n)
    {
      entries := new seq<Entry>[n](_ => [Entry([], 0)]);
      items := 0;
      new;
      assert entries[..] == Fresh(n);
      FreshOk(n);
    }

    static method HashOf(key: Text) returns (h: nat)
      ensures h == Hash(key)
    {
      h := 5381;
      for i := 0 to |key|
        invariant h == Hash(key[..i])
      {
        assert key[..i + 1][..i] == key[..i];
        h := (((h * 32) % WORD + h) % WORD + key[i]) % WORD;
        ShiftAdd(Hash(key[..i]), key[i]);
      }
      assert key[..|key|] == key;
    }

    /** The bucket of key and how far along its chain the key is. */
    method EntryGet(key: Text) returns (i: nat, j: nat)
      requires Valid()
      ensures i == Index(key, entries.Length) && j == Seek(entries[i], key)
    {
      var h := HashOf(key);
      i := h % entries.Length;
      j := 0;
      while j < |entries[i]|
        invariant j <= |entries[i]| && forall k :: 0 <= k < j ==> entries[i][k].key != key
      {
        if entries[i][j].key == key { break; }
        j := j + 1;
      }
      SeekIs(entries[i], key, j);
    }

    method Set(key: Text, val: nat)
      requires Valid()
      modifies this`items, entries
      ensures Valid() && entries[..] == Stored(old(entries[..]), key, val)
      ensures forall other ::
        Lookup(entries[..], other) == if other == key then val else Lookup(old(entries[..]), other)
    {
      ghost var was := entries[..];
      var i, j := EntryGet(key);
      if j < |entries[i]| {
        entries[i] := entries[i][j := Entry(key, val)];
      } else {
        entries[i] := entries[i] + [Entry(key, val)];
        items := items + 1;
      }
      assert entries[..] == Stored(was, key, val);
      StoredOk(was, key, val);
      StoredCount(was, key, val);
      forall other: Text ensures Lookup(entries[..], other) == if other == key then val else Lookup(was, other) {
        StoredLookup(was, key, val, other);
      }
    }

    method Get(key: Text) returns (val: nat)
      requires Valid()
      ensures val == Lookup(entries[..], key)
    {
      var i, j := EntryGet(key);
      val := if j < |entries[i]| then entries[i][j].val else 0;
    }
  }

  lemma WrapAdd(a: nat, b: nat)
    ensures (a % WORD + b) % WORD == (a + b) % WORD
  {
    var q := a / WORD;
    assert a + b == WORD * q + (a % WORD + b);
    UniqueRemainder(a + b, WORD, (a % WORD + b) / WORD + q, (a % WORD + b) % WORD);
  }

  lemma ShiftAdd(h: nat, c: Byte)
    ensures (((h * 32) % WORD + h) % WORD + c) % WORD == (33 * h + c) % WORD
  {
    WrapAdd(h * 32, h);
    WrapAdd(h * 32 + h, c);
  }

  function Fresh(n: nat): seq<seq<Entry>> { seq(n, _ => [Entry([], 0)]) }

  lemma FreshOk(n: nat)
    requires n > 0
    ensures Buckets(Fresh(n)) && Keys(Fresh(n)) == {} && forall key :: Lookup(Fresh(n), key) == 0
  {
  }

  /** The item count goes up exactly when a new non-empty key arrives. */
  lemma {:induction false} StoredCount(b: seq<seq<Entry>>, key: Text, val: nat)
    requires Buckets(b)
    ensures |Keys(Stored(b, key, val))| == |Keys(b)| + if Holds(b, key) then 0 else 1
  {
    if key == [] {
      EmptyKeys(b, key, val, Index(key, |b|));
    } else {
      KeysHeld(b, key);
      StoredKeys(b, key, val);
    }
  }

  lemma {:induction false} EmptyKeys(b: seq<seq<Entry>>, key: Text, val: nat, i: nat)
    requires Buckets(b) && key == [] && i == Index(key, |b|)
    ensures Keys(Stored(b, key, val)) == Keys(b) && Holds(b, key)
  {
    var c := Stored(b, key, val);
    assert ChainOk(b[i], i, |b|);
    SeekIs(b[i], key, 0);
    assert c == b[i := b[i][0 := Entry(key, val)]];
    assert forall k, j :: 0 <= k < |b| && 0 < j < |b[k]| ==> c[k][j] == b[k][j];
    assert forall k :: 0 <= k < |b| ==> |c[k]| == |b[k]|;
    forall x | x in Keys(b) ensures x in Keys(c) {
      var k, j :| 0 <= k < |b| && 0 < j < |b[k]| && b[k][j].key == x;
      assert c[k][j].key == x;
    }
  }

  // ----- The map behind a table -----

  /** The map a table stands for when number n is stored as the pointer n + 1. */
  ghost function AsMap(b: seq<seq<Entry>>): map<Text, nat>
  {
    map key | key in Keys(b) + {[]} && |b| > 0 && Lookup(b, key) != 0 :: Lookup(b, key) - 1
  }

  /** Looking a key up in the table is looking it up in the map. */
  ghost predicate Mirrors(m: map<Text, nat>, b: seq<seq<Entry>>)
    requires |b| > 0
  {
    forall key: Text :: Lookup(b, key) == if key in m then m[key] + 1 else 0
  }

  lemma MirrorUnique(m: map<Text, nat>, w: map<Text, nat>, b: seq<seq<Entry>>)
    requires |b| > 0 && Mirrors(m, b) && Mirrors(w, b)
    ensures m == w
  {
    forall key: Text ensures (key in m <==> key in w) && (key in m ==> m[key] == w[key]) { var v := Lookup(b, key); }
  }

  /** Every bucket starts with the entry of the empty key. */
  predicate Headed(b: seq<seq<Entry>>) { |b| > 0 && forall i: nat :: i < |b| ==> b[i] != [] && b[i][0].key == [] }

  lemma BucketsHeaded(b: seq<seq<Entry>>)
    requires Buckets(b)
    ensures Headed(b)
  {
    forall i: nat | i < |b| ensures b[i] != [] && b[i][0].key == [] { assert ChainOk(b[i], i, |b|); }
  }

  lemma AsMapMirrors(b: seq<seq<Entry>>)
    requires Headed(b)
    ensures Mirrors(AsMap(b), b)
  {
    forall key: Text ensures Lookup(b, key) == if key in AsMap(b) then AsMap(b)[key] + 1 else 0 {
      var i := Index(key, |b|);
      var j := Seek(b[i], key);
      if key != [] && j < |b[i]| { assert 0 < j && b[i][j].key == key; }
    }
  }

  lemma AsMapGet(b: seq<seq<Entry>>, key: Text)
    requires Headed(b)
    ensures key in AsMap(b) <==> Lookup(b, key) != 0
    ensures key in AsMap(b) ==> AsMap(b)[key] == Lookup(b, key) - 1
  {
    AsMapMirrors(b);
  }

  lemma MirrorSet(m: map<Text, nat>, b: seq<seq<Entry>>, key: Text, n: nat)
    requires |b| > 0 && Mirrors(m, b)
    ensures Mirrors(m[key := n], Stored(b, key, n + 1))
  {
    var c, w := Stored(b, key, n + 1), m[key := n];
    forall other: Text ensures Lookup(c, other) == if other in w then w[other] + 1 else 0 {
      StoredLookup(b, key, n + 1, other);
    }
  }

  /** Setting a key in the table is updating the map. */
  lemma AsMapSet(b: seq<seq<Entry>>, key: Text, n: nat)
    requires Headed(b)
    ensures Headed(Stored(b, key, n + 1)) && AsMap(Stored(b, key, n + 1)) == AsMap(b)[key := n]
  {
    AsMapMirrors(b);
    MirrorSet(AsMap(b), b, key, n);
    AsMapMirrors(Stored(b, key, n + 1));
    MirrorUnique(AsMap(Stored(b, key, n + 1)), AsMap(b)[key := n], Stored(b, key, n + 1));
  }

  lemma AsMapFresh(n: nat)
    requires n > 0
    ensures Buckets(Fresh(n)) && AsMap(Fresh(n)) == map[]
  {
    FreshOk(n);
  }

  // ----- Whole runs -----

  /** The last value set for key, or NULL. */
  function LastSet(ops: seq<(Text, nat)>, key: Text): nat
    decreases |ops|
  {
    if ops == [] then 0
    else if ops[|ops| - 1].0 == key then ops[|ops| - 1].1
    else LastSet(ops[..|ops| - 1], key)
  }

  function Table(n: nat, ops: seq<(Text, nat)>): (b: seq<seq<Entry>>)
    requires n > 0
    ensures |b| == n
    decreases |ops|
  {
    if ops == [] then Fresh(n) else Stored(Table(n, ops[..|ops| - 1]), ops[|ops| - 1].0, ops[|ops| - 1].1)
  }

  /** After any sequence of sets, every string, the empty one included, looks up to the last value set
      for it, and the item count is the number of distinct non-empty keys set. */
  lemma {:induction false} TableIsMap(n: nat, ops: seq<(Text, nat)>, key: Text)
    requires n > 0
    ensures Buckets(Table(n, ops)) && Lookup(Table(n, ops), key) == LastSet(ops, key)
    ensures Keys(Table(n, ops)) == set o | o in ops && o.0 != [] :: o.0
    decreases |ops|
  {
    if ops == [] { FreshOk(n); }
    else {
      var last, rest := ops[|ops| - 1], ops[..|ops| - 1];
      TableIsMap(n, rest, key);
      StoredOk(Table(n, rest), last.0, last.1);
      StoredLookup(Table(n, rest), last.0, last.1, key);
      assert forall o :: o in ops <==> o in rest || o == last;
      if last.0 == [] {
        EmptyKeys(Table(n, rest), last.0, last.1, Index(last.0, n));
      } else {
        StoredKeys(Table(n, rest), last.0, last.1);
      }
    }
  }
}
