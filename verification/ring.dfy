/** The run queue at pointer level: a circular doubly linked list of thread records. */
module RunQueue {
  import opened Sequences

  class Thread {
    var next: Thread?
    var prev: Thread?
    var lock: bool
    var running: bool
    var blocked: bool
    var enqueued: bool

    constructor ()
      ensures next == null && prev == null && !lock && !running && !blocked && !enqueued
    {
      next, prev, lock, running, blocked, enqueued := null, null, false, false, false, false;
    }

    /** What the scan looks for. */
    predicate Eligible()
      reads this
    {
      !blocked && !running && !lock
    }
  }

  /** The position k places further round a ring of n. */
  function Ahead(c: nat, k: nat, n: nat): (r: nat)
    requires c < n && k <= n
    ensures r < n
  {
    if c + k < n then c + k else c + k - n
  }

  /** The link from position i forward, and the one back to it. */
  ghost predicate LinkAt(ring: seq<Thread>, i: nat)
    requires i < |ring|
    reads ring
  {
    var succ := ring[Ahead(i, 1, |ring|)];
    ring[i].next == succ && succ.prev == ring[i]
  }

  /** next and prev are inverse and make one cycle over exactly the members of ring, in its order. */
  ghost predicate Cycle(ring: seq<Thread>)
    reads ring
  {
    Distinct(ring) && forall i: nat {:trigger LinkAt(ring, i)} :: i < |ring| ==> LinkAt(ring, i)
  }

  class SchedQueue {
    var start: Thread?
    var end: Thread?
    ghost var ring: seq<Thread>

    ghost predicate Ends()
      reads this
    {
      if ring == [] then start == null && end == null else start == ring[0] && end == ring[|ring| - 1]
    }

    ghost predicate Valid()
      reads this, ring
    {
      Cycle(ring) && Ends() && forall t :: t in ring ==> t.enqueued
    }

    constructor ()
      ensures Valid() && ring == []
    {
      start, end, ring := null, null, [];
    }

    method Enqueue(thread: Thread)
      requires Valid() && (thread.enqueued <==> thread in ring)
      modifies this, thread, ring
      ensures Valid() && ring == (if old(thread.enqueued) then old(ring) else old(ring) + [thread])
      ensures forall t :: t in ring ==>
        t.lock == old(t.lock) && t.running == old(t.running) && t.blocked == old(t.blocked)
    {
      if thread.enqueued { return; }
      ghost var before, n := ring, |ring|;
      assert n > 0 ==> LinkAt(before, n - 1);
      if start == null || end == null {
        start, end := thread, thread;
      }
      thread.prev := end;
      end.next := thread;
      end := thread;
      thread.next := start;
      start.prev := thread;
      thread.enqueued := true;
      ring := ring + [thread];
      forall i: nat | i < |ring| ensures LinkAt(ring, i) {
        if i + 1 < n { assert old(LinkAt(before, i)); }
      }
    }

    /** The two link writes of a removal: the rest stays one cycle. */
    method Unlink(thread: Thread, ghost i: nat)
      requires Cycle(ring) && i < |ring| && ring[i] == thread && thread.next != null && thread.prev != null
      modifies ring`next, ring`prev
      ensures Cycle(Without(ring, i))
    {
      ghost var n := |ring|;
      ghost var p := Ahead(i, n - 1, n);
      assert LinkAt(ring, i) && LinkAt(ring, p);
      thread.next.prev := thread.prev;
      thread.prev.next := thread.next;
      ghost var rest := Without(ring, i);
      WithoutEnds(ring, i, rest);
      forall k: nat | k < |rest| ensures LinkAt(rest, k) {
        var b := if k < i then k else k + 1;
        assert rest[k] == ring[b] && old(LinkAt(ring, b));
        assert rest[Ahead(k, 1, |rest|)] == if k == p || b == p then ring[Ahead(i, 1, n)] else ring[Ahead(b, 1, n)];
      }
    }

    /** Unlinks the i-th thread and gives up its lock and flags; the others keep theirs. */
    method Leave(thread: Thread, ghost i: nat)
      requires Valid() && i < |ring| && ring[i] == thread
      modifies this`ring, ring
      ensures ring == Without(old(ring), i) && Cycle(ring) && thread !in ring && !thread.enqueued && !thread.running
      ensures !thread.lock
      ensures forall t :: t in ring ==>
        t.enqueued && t.lock == old(t.lock) && t.running == old(t.running) && t.blocked == old(t.blocked)
    {
      assert LinkAt(ring, i) && LinkAt(ring, Ahead(i, |ring| - 1, |ring|));
      Unlink(thread, i);
      ghost var rest := Without(ring, i);
      WithoutEnds(ring, i, rest);
      thread.lock := false;
      thread.enqueued := false;
      thread.running := false;
      ring := rest;
    }

    /** Removes thread. The links always stay a cycle over the rest; start and end are not looked at,
        so the queue stays valid exactly when thread was neither. */
    method Dequeue(thread: Thread, ghost i: nat)
      requires Valid() && (thread.enqueued <==> thread in ring) && (thread.enqueued ==> i < |ring| && ring[i] == thread)
      modifies this`ring, ring
      ensures !old(thread.enqueued) ==> Valid() && ring == old(ring) && thread.lock == old(thread.lock)
      ensures old(thread.enqueued) ==> ring == Without(old(ring), i) && Cycle(ring) && thread !in ring
      ensures old(thread.enqueued) ==> !thread.enqueued && !thread.running && !thread.lock
      ensures old(thread.enqueued) ==> (Valid() <==> thread != start && thread != end)
      ensures forall t :: t in ring ==>
        t.lock == old(t.lock) && t.running == old(t.running) && t.blocked == old(t.blocked)
    {
      if !thread.enqueued { return; }
      WithoutEnds(ring, i, Without(ring, i));
      Leave(thread, i);
    }

    /** The scan of one CPU: takes the first eligible thread after current in ring order. */
    method GetNext(current: Thread, ghost c: nat) returns (r: Thread?, ghost d: nat)
      requires Valid() && c < |ring| && ring[c] == current
      modifies ring`lock
      ensures 1 <= d <= |ring|
      ensures forall k: nat {:trigger Ahead(c, k, |ring|)} :: 1 <= k < d ==> !old(ring[Ahead(c, k, |ring|)].Eligible())
      ensures r == null <==> d == |ring|
      ensures r != null ==> r == ring[Ahead(c, d, |ring|)] && old(r.Eligible()) && r.lock
      ensures forall t :: t in ring && t != r ==> t.lock == old(t.lock)
    {
      assert LinkAt(ring, c);
      var at := current.next;
      d := 1;
      r := null;
      while at != current && at != null
        invariant 1 <= d <= |ring| && at == ring[Ahead(c, d, |ring|)]
        invariant forall k: nat {:trigger Ahead(c, k, |ring|)} :: 1 <= k < d ==> !ring[Ahead(c, k, |ring|)].Eligible()
        invariant Valid() && forall t :: t in ring ==> t.lock == old(t.lock)
        decreases |ring| - d
      {
        if !(at.blocked || at.running) {
          if !at.lock {
            at.lock := true;
            return at, d;
          }
        }
        assert LinkAt(ring, Ahead(c, d, |ring|));
        at := at.next;
        d := d + 1;
      }
    }
  }

  /** Two threads queued and the first one removed: the queue still starts at the thread that has left. */
  method FirstLeaves() returns (q: SchedQueue, a: Thread, b: Thread)
    ensures a != b && q.ring == [b] && Cycle(q.ring) && q.start == a && !q.Valid()
  {
    q := new SchedQueue();
    a := new Thread();
    b := new Thread();
    q.Enqueue(a);
    q.Enqueue(b);
    assert q.ring == [a, b];
    q.Dequeue(a, 0);
    assert q.ring == [b];
  }
}
