/** A circular doubly linked list threaded through memory: next and prev give the link words by
    address, and nodes lists the addresses in order, sentinel first. */
module LinkedRing {
  import opened Sequences

  function Succ(i: nat, n: nat): nat
    requires i < n
  {
    if i + 1 == n then 0 else i + 1
  }

  predicate LinkAt(next: map<nat, nat>, prev: map<nat, nat>, nodes: seq<nat>, i: nat)
    requires i < |nodes|
  {
    var x, y := nodes[i], nodes[Succ(i, |nodes|)];
    x in next && next[x] == y && y in prev && prev[y] == x
  }

  /** next and prev are inverse and go round exactly nodes, in order. */
  ghost predicate Ring(next: map<nat, nat>, prev: map<nat, nat>, nodes: seq<nat>)
  {
    nodes != [] && Distinct(nodes) &&
    forall i: nat {:trigger LinkAt(next, prev, nodes, i)} :: i < |nodes| ==> LinkAt(next, prev, nodes, i)
  }

  function InsertAfter(nodes: seq<nat>, i: nat, x: nat): seq<nat>
    requires i < |nodes|
  {
    nodes[..i + 1] + [x] + nodes[i + 1..]
  }

  /** Linking x in between position i and its successor. */
  lemma InsertRing(next: map<nat, nat>, prev: map<nat, nat>, nodes: seq<nat>, i: nat, x: nat, y: nat,
                   next': map<nat, nat>, prev': map<nat, nat>)
    requires Ring(next, prev, nodes) && i < |nodes| && x !in nodes && y == nodes[Succ(i, |nodes|)]
    requires next' == next[x := y][nodes[i] := x] && prev' == prev[y := x][x := nodes[i]]
    ensures Ring(next', prev', InsertAfter(nodes, i, x))
  {
    var more, n := InsertAfter(nodes, i, x), |nodes|;
    forall k: nat | k < |more| ensures LinkAt(next', prev', more, k) {
      if k <= i { assert LinkAt(next, prev, nodes, k) && more[k] == nodes[k]; }
      else if k > i + 1 { assert LinkAt(next, prev, nodes, k - 1) && more[k] == nodes[k - 1]; }
    }
  }

  /** Unlinking position i, not the sentinel. */
  lemma RemoveRing(next: map<nat, nat>, prev: map<nat, nat>, nodes: seq<nat>, i: nat, next': map<nat, nat>,
                   prev': map<nat, nat>)
    requires Ring(next, prev, nodes) && 0 < i < |nodes|
    requires
      var x, y := nodes[i - 1], nodes[Succ(i, |nodes|)];
      next' == next[x := y] && prev' == prev[y := x]
    ensures Ring(next', prev', Without(nodes, i))
  {
    var rest := Without(nodes, i);
    WithoutEnds(nodes, i, rest);
    forall k: nat | k < |rest| ensures LinkAt(next', prev', rest, k) {
      var b := if k < i then k else k + 1;
      assert rest[k] == nodes[b] && LinkAt(next, prev, nodes, b);
      assert rest[Succ(k, |rest|)] == if k == i - 1 then nodes[Succ(i, |nodes|)] else nodes[Succ(b, |nodes|)];
    }
  }
}
