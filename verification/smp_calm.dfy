/** The scheduler with the ring as the code keeps it: when link writes are serialised against scans,
    no scan ever reaches a thread that has exited, so mutual exclusion holds on every run. */
module SerialisedExits {
  import opened Words
  import opened SmpScheduler
  import opened RunQueue
  import opened Sequences

  /** ring lists the enqueued threads in next order. */
  datatype Sys = Sys(s: State, ring: seq<Tid>)

  // ----- Steps -----

  /** The writes of sched_enqueue_thread; queue.start and queue.end are the ends of ring. */
  function Link(s: State, ring: seq<Tid>, t: Tid): State
    requires t < |s.threads|
  {
    var first, last := if ring == [] then t else ring[0], if ring == [] then t else ring[|ring| - 1];
    var s1 := SetNext(SetPrev(s, Some(t), Some(last)), Some(last), Some(t));
    var s2 := SetPrev(SetNext(s1, Some(t), Some(first)), Some(first), Some(t));
    SetThread(s2, t, s2.threads[t].(enqueued := true))
  }

  function Remove(ring: seq<Tid>, t: Tid): seq<Tid>
    decreases |ring|
  {
    if ring == [] then [] else if ring[0] == t then ring[1..] else [ring[0]] + Remove(ring[1..], t)
  }

  /** As Do, with enqueueing in one step and the ring kept alongside. */
  function Act(q: Sys, a: Action): Sys
  {
    match a
    case Boot => Sys(Link(Do(q.s, Boot), q.ring, |q.s.threads|), q.ring + [|q.s.threads|])
    case Create => Sys(Link(Do(q.s, Create), q.ring, |q.s.threads|), q.ring + [|q.s.threads|])
    case Relink(_, _, _) => q
    case Publish(_) => q
    case Tick(_) => q.(s := Do(q.s, a))
    case Exit(_) => q.(s := Do(q.s, a))
    case Go(c) =>
      Sys(Do(q.s, a),
          if c < |q.s.cpus| && q.s.cpus[c].pc.ExitPrev? then Remove(q.ring, q.s.cpus[c].current) else q.ring)
  }

  predicate Scanning(pc: Pc) { pc.Visit? || pc.CheckBlocked? || pc.CheckRunning? || pc.TryLock? }

  predicate Editing(pc: Pc) { pc.ExitNext? || pc.ExitPrev? }

  /** What a caller must see to: no scan, enqueue or second removal overlaps a removal, and the thread
      removed is at neither end of the queue. */
  ghost predicate Calm(q: Sys, a: Action)
  {
    match a
    case Boot => NoEdit(q.s)
    case Create => NoEdit(q.s)
    case Tick(_) => NoEdit(q.s)
    case Go(c) =>
      c < |q.s.cpus| && q.s.cpus[c].pc.ExitCheck? ==>
        && (forall d: nat :: d < |q.s.cpus| ==> !Scanning(q.s.cpus[d].pc) && !Editing(q.s.cpus[d].pc))
        && Inside(q.ring, q.s.cpus[c].current)
    case _ => true
  }

  ghost predicate NoEdit(s: State) { forall d: nat :: d < |s.cpus| ==> !Editing(s.cpus[d].pc) }

  /** t is not at an end of ring. */
  predicate Inside(ring: seq<Tid>, t: Tid) { ring != [] && t != ring[0] && t != ring[|ring| - 1] }

  // ----- The invariant -----

  predicate NextAt(s: State, ring: seq<Tid>, i: nat)
    requires i < |ring|
  {
    ring[i] < |s.threads| && s.threads[ring[i]].next == Some(ring[Ahead(i, 1, |ring|)])
  }

  predicate PrevAt(s: State, ring: seq<Tid>, i: nat)
    requires i < |ring|
  {
    var y := ring[Ahead(i, 1, |ring|)];
    y < |s.threads| && s.threads[y].prev == Some(ring[i])
  }

  predicate Enqueued(s: State, t: Tid) { t < |s.threads| && s.threads[t].enqueued && t !in s.exited }

  ghost predicate NextRing(s: State, ring: seq<Tid>)
  {
    && Distinct(ring) && (forall t :: t in ring ==> Enqueued(s, t))
    && forall i: nat {:trigger NextAt(s, ring, i)} :: i < |ring| ==> NextAt(s, ring, i)
  }

  /** prev links mirror next links, except over a removal that has done its first write. */
  ghost predicate PrevRing(s: State, ring: seq<Tid>)
  {
    forall i: nat {:trigger PrevAt(s, ring, i)} :: i < |ring| ==> PrevAt(s, ring, i) || HalfRemoved(s, ring[i])
  }

  ghost predicate HalfRemoved(s: State, t: Tid)
  {
    exists c: nat :: c < |s.cpus| && s.cpus[c].pc.ExitPrev? && s.cpus[c].current == t
  }

  /** Where CPU u stands relative to the ring. */
  predicate CpuIn(ring: seq<Tid>, u: Cpu)
  {
    && u.idle in ring
    && (Executes(u, u.current) && !u.pc.ExitUnlock? ==> u.current in ring)
    && (Editing(u.pc) ==> Inside(ring, u.current))
    && match u.pc
       case Visit(at) => at.Some? ==> at.value in ring
       case CheckBlocked(x) => x in ring
       case CheckRunning(x) => x in ring
       case TryLock(x) => x in ring
       case Clear(x) => x in ring
       case Unlock(x) => x in ring
       case Adopt(x) => x in ring
       case ExitUnlock => u.current !in ring
       case ExitDequeued => u.current !in ring
       case _ => true
  }

  ghost predicate CpusIn(s: State, ring: seq<Tid>) { forall c: nat :: c < |s.cpus| ==> CpuIn(ring, s.cpus[c]) }

  /** While one CPU removes a thread, no other scans or removes. */
  ghost predicate Serial(s: State)
  {
    forall c: nat, d: nat :: c < |s.cpus| && d < |s.cpus| && c != d && Editing(s.cpus[c].pc) ==>
      !Scanning(s.cpus[d].pc) && !Editing(s.cpus[d].pc)
  }

  /** After the first write of a removal, the successor already points back past the thread. */
  predicate MidExit(s: State, u: Cpu)
  {
    u.pc.ExitPrev? ==>
      u.current < |s.threads| &&
      var t := s.threads[u.current];
      t.next.Some? && t.next.value < |s.threads| && s.threads[t.next.value].prev == t.prev
  }

  ghost predicate MidExits(s: State) { forall c: nat :: c < |s.cpus| ==> MidExit(s, s.cpus[c]) }

  /** t is out of the ring and about to give up its lock. */
  ghost predicate Leaving(s: State, t: Tid)
  {
    exists c: nat :: c < |s.cpus| && s.cpus[c].pc.ExitUnlock? && s.cpus[c].current == t
  }

  /** No thread is missing from the ring but those that have left it. */
  ghost predicate Complete(s: State, ring: seq<Tid>)
  {
    forall t: Tid :: t < |s.threads| ==> t in ring || t in s.exited || Leaving(s, t)
  }

  ghost predicate RingOk(s: State, ring: seq<Tid>)
  {
    NextRing(s, ring) && PrevRing(s, ring) && CpusIn(s, ring) && Serial(s) && MidExits(s) && Complete(s, ring)
  }

  // ----- Steps that leave the ring alone -----

  /** Ring links and flags as before, nothing in the ring newly exited. */
  ghost predicate SameRing(s: State, s': State, ring: seq<Tid>)
  {
    && |s'.threads| == |s.threads| && s.exited <= s'.exited && (forall t :: t in ring ==> t !in s'.exited)
    && (forall t: Tid :: t in ring && t < |s.threads| ==>
          s'.threads[t].next == s.threads[t].next && s'.threads[t].prev == s.threads[t].prev
          && s'.threads[t].enqueued == s.threads[t].enqueued)
  }

  lemma SameHalf(s: State, s': State, c: nat, u: Cpu, t: Tid)
    requires c < |s.cpus| && s'.cpus == s.cpus[c := u] && HalfRemoved(s, t)
    requires u.pc.ExitPrev? == s.cpus[c].pc.ExitPrev? && (u.pc.ExitPrev? ==> u.current == s.cpus[c].current)
    ensures HalfRemoved(s', t)
  {
    var d: nat :| d < |s.cpus| && s.cpus[d].pc.ExitPrev? && s.cpus[d].current == t;
    assert s'.cpus[d].pc.ExitPrev?;
  }

  lemma SameLinks(s: State, s': State, ring: seq<Tid>)
    requires NextRing(s, ring) && SameRing(s, s', ring)
    ensures NextRing(s', ring)
    ensures forall i: nat :: i < |ring| && PrevAt(s, ring, i) ==> PrevAt(s', ring, i)
  {
    forall i: nat | i < |ring| ensures NextAt(s', ring, i) && (PrevAt(s, ring, i) ==> PrevAt(s', ring, i)) {
      assert NextAt(s, ring, i) && ring[i] in ring && ring[Ahead(i, 1, |ring|)] in ring;
    }
    forall t | t in ring ensures Enqueued(s', t) { assert Enqueued(s, t); }
  }

  lemma SameComplete(s: State, s': State, ring: seq<Tid>, c: nat, u: Cpu)
    requires Complete(s, ring) && c < |s.cpus| && SameRing(s, s', ring) && s'.cpus == s.cpus[c := u]
    requires s.cpus[c].pc.ExitUnlock? ==> s.cpus[c].current in s'.exited
    ensures Complete(s', ring)
  {
    forall t: Tid | t < |s'.threads| && Leaving(s, t) ensures t in s'.exited || Leaving(s', t) {
      var d: nat :| d < |s.cpus| && s.cpus[d].pc.ExitUnlock? && s.cpus[d].current == t;
      if d != c { assert s'.cpus[d] == s.cpus[d]; }
    }
  }

  /** A step of CPU c that leaves the ring alone. */
  lemma SameRingOk(s: State, s': State, ring: seq<Tid>, c: nat, u: Cpu)
    requires RingOk(s, ring) && c < |s.cpus| && SameRing(s, s', ring) && s'.cpus == s.cpus[c := u] && CpuIn(ring, u)
    requires u.pc.ExitPrev? == s.cpus[c].pc.ExitPrev? && (u.pc.ExitPrev? ==> u.current == s.cpus[c].current)
    requires Serial(s') && (s.cpus[c].pc.ExitUnlock? ==> s.cpus[c].current in s'.exited)
    ensures RingOk(s', ring)
  {
    SameLinks(s, s', ring);
    SameComplete(s, s', ring, c, u);
    forall i: nat | i < |ring| ensures PrevAt(s', ring, i) || HalfRemoved(s', ring[i]) {
      if HalfRemoved(s, ring[i]) { SameHalf(s, s', c, u, ring[i]); } else { assert PrevAt(s, ring, i); }
    }
    forall d: nat | d < |s'.cpus| ensures MidExit(s', s'.cpus[d]) {
      assert MidExit(s, s.cpus[d]) && CpuIn(ring, s.cpus[d]);
      if s'.cpus[d].pc.ExitPrev? { NextIn(s, ring, s.cpus[d].current); }
    }
  }

  /** Advancing along the ring stays in it. */
  lemma NextIn(s: State, ring: seq<Tid>, x: Tid)
    requires NextRing(s, ring) && x in ring
    ensures x < |s.threads| && s.threads[x].next.Some? && s.threads[x].next.value in ring
  {
    var i: nat :| i < |ring| && ring[i] == x;
    assert NextAt(s, ring, i);
  }

  lemma VisitStays(q: Sys, c: nat)
    requires Inv(q.s) && RingOk(q.s, q.ring) && c < |q.s.cpus| && q.s.cpus[c].pc.Visit?
    ensures RingOk(Micro(q.s, c), q.ring)
  {
    var u, s' := q.s.cpus[c], Micro(q.s, c);
    assert CpuOk(q.s, u) && CpuIn(q.ring, u);
    SameRingOk(q.s, s', q.ring, c, s'.cpus[c]);
  }

  lemma ScanStays(q: Sys, c: nat)
    requires Inv(q.s) && RingOk(q.s, q.ring) && c < |q.s.cpus| && Scanning(q.s.cpus[c].pc) && !q.s.cpus[c].pc.Visit?
    ensures RingOk(Micro(q.s, c), q.ring)
  {
    var u, s' := q.s.cpus[c], Micro(q.s, c);
    assert CpuOk(q.s, u) && CpuIn(q.ring, u);
    NextIn(q.s, q.ring, u.pc.x);
    SameRingOk(q.s, s', q.ring, c, s'.cpus[c]);
  }

  lemma SwitchStays(q: Sys, c: nat)
    requires Inv(q.s) && RingOk(q.s, q.ring) && c < |q.s.cpus|
    requires q.s.cpus[c].pc.Clear? || q.s.cpus[c].pc.Unlock? || q.s.cpus[c].pc.Adopt? || q.s.cpus[c].pc.Resume?
    ensures RingOk(Micro(q.s, c), q.ring)
  {
    var u, s' := q.s.cpus[c], Micro(q.s, c);
    assert CpuOk(q.s, u) && CpuIn(q.ring, u);
    SameRingOk(q.s, s', q.ring, c, s'.cpus[c]);
  }

  lemma StopStays(q: Sys, c: nat)
    requires Inv(q.s) && RingOk(q.s, q.ring) && c < |q.s.cpus|
    requires
      var pc := q.s.cpus[c].pc;
      pc.ExitUnlock? || pc.ExitDequeued? || pc.ExitStop? || pc.Park?
    ensures RingOk(Micro(q.s, c), q.ring)
  {
    var u, s' := q.s.cpus[c], Micro(q.s, c);
    assert CpuOk(q.s, u) && CpuIn(q.ring, u);
    SameRingOk(q.s, s', q.ring, c, s'.cpus[c]);
  }

  lemma EnterStays(q: Sys, a: Action)
    requires Inv(q.s) && RingOk(q.s, q.ring) && (a.Tick? || a.Exit?) && Calm(q, a)
    ensures RingOk(Do(q.s, a), q.ring)
  {
    if a.c < |q.s.cpus| && q.s.cpus[a.c].pc.Run? {
      var u, s' := q.s.cpus[a.c], Do(q.s, a);
      assert CpuOk(q.s, u) && CpuIn(q.ring, u);
      NextIn(q.s, q.ring, u.current);
      SameRingOk(q.s, s', q.ring, a.c, s'.cpus[a.c]);
    }
  }

  lemma CheckStays(q: Sys, c: nat)
    requires Inv(q.s) && RingOk(q.s, q.ring) && c < |q.s.cpus| && q.s.cpus[c].pc.ExitCheck? && Calm(q, Go(c))
    ensures RingOk(Micro(q.s, c), q.ring)
  {
    var u, s' := q.s.cpus[c], Micro(q.s, c);
    assert CpuOk(q.s, u) && CpuIn(q.ring, u) && Enqueued(q.s, u.current);
    SameRingOk(q.s, s', q.ring, c, s'.cpus[c]);
  }

  // ----- The removal -----

  /** A thread about to be removed sits between two others that are linked to it. */
  lemma Between(s: State, ring: seq<Tid>, c: nat) returns (i: nat)
    requires RingOk(s, ring) && c < |s.cpus| && Editing(s.cpus[c].pc)
    ensures 0 < i < |ring| - 1 && ring[i] == s.cpus[c].current && ring[i] < |s.threads|
    ensures s.threads[ring[i]].next == Some(ring[i + 1]) && s.threads[ring[i]].prev == Some(ring[i - 1])
  {
    assert CpuIn(ring, s.cpus[c]);
    i :| 0 <= i < |ring| && ring[i] == s.cpus[c].current;
    assert NextAt(s, ring, i) && (PrevAt(s, ring, i - 1) || HalfRemoved(s, ring[i - 1]));
  }

  /** The ring after the first write of a removal: one backward link goes past the i-th thread. */
  lemma FirstWriteRing(s: State, ring: seq<Tid>, c: nat, i: nat, s': State)
    requires NextRing(s, ring) && PrevRing(s, ring) && Serial(s) && c < |s.cpus| && s.cpus[c].pc.ExitNext?
    requires 0 < i < |ring| - 1 && s.cpus[c].current == ring[i]
    requires Enqueued(s, ring[i + 1]) && s' == SetPc(SetPrev(s, Some(ring[i + 1]), Some(ring[i - 1])), c, ExitPrev)
    ensures NextRing(s', ring) && PrevRing(s', ring)
  {
    forall k: nat | k < |ring| ensures NextAt(s', ring, k) { assert NextAt(s, ring, k); }
    forall t | t in ring ensures Enqueued(s', t) { assert Enqueued(s, t); }
    assert s'.cpus[c].pc.ExitPrev? && HalfRemoved(s', ring[i]);
    forall k: nat | k < |ring| ensures PrevAt(s', ring, k) || HalfRemoved(s', ring[k]) {
      if k != i { assert PrevAt(s, ring, k) || HalfRemoved(s, ring[k]); }
    }
  }

  lemma FirstWriteStays(q: Sys, c: nat)
    requires Inv(q.s) && RingOk(q.s, q.ring) && c < |q.s.cpus| && q.s.cpus[c].pc.ExitNext?
    ensures RingOk(Micro(q.s, c), q.ring)
  {
    var s, ring, s' := q.s, q.ring, Micro(q.s, c);
    var i := Between(s, ring, c);
    assert ring[i + 1] in ring && Enqueued(s, ring[i + 1]);
    assert s' == SetPc(SetPrev(s, Some(ring[i + 1]), Some(ring[i - 1])), c, ExitPrev);
    FirstWriteRing(s, ring, c, i, s');
    forall d: nat | d < |s'.cpus| ensures CpuIn(ring, s'.cpus[d]) && MidExit(s', s'.cpus[d]) {
      assert CpuIn(ring, s.cpus[d]);
    }
    LeavingStays(s, s', c);
  }

  lemma LeavingStays(s: State, s': State, c: nat)
    requires c < |s.cpus| == |s'.cpus| && !s.cpus[c].pc.ExitUnlock?
    requires forall d: nat :: d < |s.cpus| && d != c ==> s'.cpus[d] == s.cpus[d]
    ensures forall t: Tid :: Leaving(s, t) ==> Leaving(s', t)
  {
    forall t: Tid | Leaving(s, t) ensures Leaving(s', t) {
      var d: nat :| d < |s.cpus| && s.cpus[d].pc.ExitUnlock? && s.cpus[d].current == t;
      assert s'.cpus[d] == s.cpus[d];
    }
  }

  lemma {:induction false} RemoveIsWithout(ring: seq<Tid>, i: nat)
    requires Distinct(ring) && i < |ring|
    ensures Remove(ring, ring[i]) == Without(ring, i)
    decreases |ring|
  {
    if i > 0 {
      RemoveIsWithout(ring[1..], i - 1);
      assert Without(ring, i) == [ring[0]] + Without(ring[1..], i - 1);
    }
  }

  /** Dropping the i-th member, an inner one, from the ring: the links around it now join. */
  lemma JoinedRing(s: State, s': State, ring: seq<Tid>, i: nat, rest: seq<Tid>)
    requires NextRing(s, ring) && 0 < i < |ring| - 1 && rest == Without(ring, i) && ring[i - 1] < |s.threads|
    requires s'.threads == s.threads[ring[i - 1] := s.threads[ring[i - 1]].(next := Some(ring[i + 1]))]
    requires s'.exited == s.exited
    ensures NextRing(s', rest)
  {
    WithoutEnds(ring, i, rest);
    forall k: nat | k < |rest| ensures NextAt(s', rest, k) {
      var b := if k < i then k else k + 1;
      assert rest[k] == ring[b] && NextAt(s, ring, b);
      assert rest[Ahead(k, 1, |rest|)] == if k == i - 1 then ring[i + 1] else ring[Ahead(b, 1, |ring|)];
    }
    forall t | t in rest ensures Enqueued(s', t) { assert Enqueued(s, t); }
  }

  lemma JoinedPrev(s: State, s': State, ring: seq<Tid>, i: nat, rest: seq<Tid>)
    requires NextRing(s, ring) && 0 < i < |ring| - 1 && rest == Without(ring, i) && ring[i - 1] < |s.threads|
    requires s'.threads == s.threads[ring[i - 1] := s.threads[ring[i - 1]].(next := Some(ring[i + 1]))]
    requires forall k: nat :: k < |ring| && k != i ==> PrevAt(s, ring, k)
    requires ring[i + 1] < |s.threads| && s.threads[ring[i + 1]].prev == Some(ring[i - 1])
    ensures PrevRing(s', rest)
  {
    forall k: nat | k < |rest| ensures PrevAt(s', rest, k) {
      var b := if k < i then k else k + 1;
      assert rest[k] == ring[b] && PrevAt(s, ring, b);
      assert rest[Ahead(k, 1, |rest|)] == if k == i - 1 then ring[i + 1] else ring[Ahead(b, 1, |ring|)];
    }
  }

  /** A CPU that has nothing to do with t stays where it was when t leaves the ring. */
  lemma LeaveIn(ring: seq<Tid>, i: nat, rest: seq<Tid>, u: Cpu)
    requires Distinct(ring) && i < |ring| && rest == Without(ring, i) && CpuIn(ring, u)
    requires u.idle != ring[i] && !Owns(u, ring[i]) && !Scanning(u.pc) && !Editing(u.pc)
    ensures CpuIn(rest, u)
  {
    WithoutEnds(ring, i, rest);
    forall t | t in ring && t != ring[i] ensures t in rest {
      var k: nat :| k < |ring| && ring[k] == t;
      assert rest[if k < i then k else k - 1] == t;
    }
  }

  lemma SecondWriteStays(q: Sys, c: nat)
    requires Inv(q.s) && RingOk(q.s, q.ring) && c < |q.s.cpus| && q.s.cpus[c].pc.ExitPrev?
    ensures RingOk(Micro(q.s, c), Remove(q.ring, q.s.cpus[c].current))
  {
    var s, ring, s' := q.s, q.ring, Micro(q.s, c);
    var i := Between(s, ring, c);
    RemoveIsWithout(ring, i);
    var rest := Without(ring, i);
    assert MidExit(s, s.cpus[c]) && ring[i - 1] in ring && Enqueued(s, ring[i - 1]);
    assert s' == SetPc(SetNext(s, Some(ring[i - 1]), Some(ring[i + 1])), c, ExitUnlock);
    JoinedRing(s, s', ring, i, rest);
    forall k: nat | k < |ring| && k != i ensures PrevAt(s, ring, k) {
      assert PrevAt(s, ring, k) || HalfRemoved(s, ring[k]);
    }
    JoinedPrev(s, s', ring, i, rest);
    WithoutEnds(ring, i, rest);
    assert CpuOk(s, s.cpus[c]) && Has(s, c, ring[i]);
    forall d: nat | d < |s'.cpus| ensures CpuIn(rest, s'.cpus[d]) {
      assert CpuIn(ring, s.cpus[d]) && CpuOk(s, s.cpus[d]);
      if d != c {
        assert !Has(s, d, ring[i]);
        LeaveIn(ring, i, rest, s.cpus[d]);
      }
    }
    LeavingStays(s, s', c);
    StillComplete(s, s', ring, i, rest, c);
  }

  /** The thread just unlinked is the one now missing from the ring. */
  lemma StillComplete(s: State, s': State, ring: seq<Tid>, i: nat, rest: seq<Tid>, c: nat)
    requires Complete(s, ring) && i < |ring| && rest == Without(ring, i) && |s'.threads| == |s.threads|
    requires s'.exited == s.exited && (forall t: Tid :: Leaving(s, t) ==> Leaving(s', t))
    requires c < |s'.cpus| && s'.cpus[c].pc.ExitUnlock? && s'.cpus[c].current == ring[i]
    ensures Complete(s', rest)
  {
    forall t: Tid | t < |s.threads| && t in ring ensures t in rest || Leaving(s', t) {
      var k: nat :| k < |ring| && ring[k] == t;
      if k != i { assert rest[if k < i then k else k - 1] == t; }
    }
  }

  // ----- Enqueueing -----

  ghost predicate Linked(s: State, ring: seq<Tid>)
  {
    NextRing(s, ring) && forall i: nat {:trigger PrevAt(s, ring, i)} :: i < |ring| ==> PrevAt(s, ring, i)
  }

  /** The writes of an enqueue close the ring over the new thread. */
  lemma LinkCloses(s: State, ring: seq<Tid>, t: Tid, s': State, more: seq<Tid>)
    requires Linked(s, ring) && t < |s.threads| && t !in ring && t !in s.exited
    requires s' == Link(s, ring, t) && more == ring + [t]
    ensures Linked(s', more)
  {
    var n := |ring|;
    if n > 0 { assert NextAt(s, ring, n - 1) && PrevAt(s, ring, n - 1) && NextAt(s, ring, 0); }
    forall k: nat | k < |more| ensures NextAt(s', more, k) && PrevAt(s', more, k) {
      if k + 1 < n { assert NextAt(s, ring, k) && PrevAt(s, ring, k); }
    }
    forall x | x in more ensures Enqueued(s', x) { if x != t { assert Enqueued(s, x); } }
  }

  lemma EditInv(s: State, s': State)
    requires Inv(s) && SameLocks(s, s') && s'.cpus == s.cpus
    ensures Inv(s')
  {
    SameExclusive(s, s');
    forall d: nat | d < |s'.cpus| ensures CpuOk(s', s'.cpus[d]) { CpuOkSame(s, s', s.cpus[d]); }
  }

  /** One write to a thread's links or enqueued flag. */
  lemma WriteInv(s: State, x: Tid, th: SmpScheduler.Thread)
    requires Inv(s) && x < |s.threads| && th.lock == s.threads[x].lock && th.blocked == s.threads[x].blocked
    requires In(s, th.next) && In(s, th.prev)
    ensures Inv(SetThread(s, x, th))
  {
    EditInv(s, SetThread(s, x, th));
  }

  /** An enqueue touches no lock and no CPU. */
  lemma LinkInv(s: State, ring: seq<Tid>, t: Tid, s': State)
    requires Inv(s) && Linked(s, ring) && t < |s.threads| && s' == Link(s, ring, t)
    ensures Inv(s') && s'.cpus == s.cpus && s'.exited == s.exited && |s'.threads| == |s.threads|
  {
    if ring != [] { assert NextAt(s, ring, 0) && NextAt(s, ring, |ring| - 1); }
    var first, last := if ring == [] then t else ring[0], if ring == [] then t else ring[|ring| - 1];
    WriteInv(s, t, s.threads[t].(prev := Some(last)));
    var a := SetPrev(s, Some(t), Some(last));
    WriteInv(a, last, a.threads[last].(next := Some(t)));
    var b := SetNext(a, Some(last), Some(t));
    WriteInv(b, t, b.threads[t].(next := Some(first)));
    var c := SetNext(b, Some(t), Some(first));
    WriteInv(c, first, c.threads[first].(prev := Some(t)));
    var d := SetPrev(c, Some(first), Some(t));
    WriteInv(d, t, d.threads[t].(enqueued := true));
  }

  lemma GrowIn(ring: seq<Tid>, t: Tid, u: Cpu)
    requires CpuIn(ring, u) && t !in ring && u.current != t && !Editing(u.pc)
    ensures CpuIn(ring + [t], u)
  {
  }

  /** A new thread record leaves the ring as it was. */
  lemma NewLinked(q: Sys, a: Action)
    requires RingOk(q.s, q.ring) && NoEdit(q.s) && (a.Boot? || a.Create?)
    ensures Linked(Do(q.s, a), q.ring)
  {
    var s' := Do(q.s, a);
    forall i: nat | i < |q.ring| ensures NextAt(s', q.ring, i) && PrevAt(s', q.ring, i) {
      assert NextAt(q.s, q.ring, i) && (PrevAt(q.s, q.ring, i) || HalfRemoved(q.s, q.ring[i]));
    }
    forall t | t in q.ring ensures Enqueued(s', t) { assert Enqueued(q.s, t); }
  }

  /** A new CPU's or thread's record joins; every older one is as before. */
  lemma NewCpusIn(q: Sys, a: Action, s: State, t: Tid, more: seq<Tid>)
    requires Inv(q.s) && RingOk(q.s, q.ring) && NoEdit(q.s) && (a.Boot? || a.Create?) && s == Do(q.s, a)
    requires t == |q.s.threads| && t !in q.ring && more == q.ring + [t]
    ensures forall d: nat :: d < |s.cpus| ==> CpuIn(more, s.cpus[d]) && !Editing(s.cpus[d].pc)
  {
    forall d: nat | d < |s.cpus| ensures CpuIn(more, s.cpus[d]) && !Editing(s.cpus[d].pc) {
      if d < |q.s.cpus| {
        assert CpuIn(q.ring, q.s.cpus[d]) && CpuOk(q.s, q.s.cpus[d]);
        GrowIn(q.ring, t, q.s.cpus[d]);
      }
    }
  }

  lemma NewComplete(q: Sys, a: Action, s: State, t: Tid, more: seq<Tid>)
    requires Complete(q.s, q.ring) && (a.Boot? || a.Create?) && s == Do(q.s, a)
    requires t == |q.s.threads| && more == q.ring + [t]
    ensures Complete(s, more)
  {
    forall x: Tid | x < t && Leaving(q.s, x) ensures Leaving(s, x) {
      var d: nat :| d < |q.s.cpus| && q.s.cpus[d].pc.ExitUnlock? && q.s.cpus[d].current == x;
      assert s.cpus[d] == q.s.cpus[d];
    }
  }

  lemma EnqueueStays(q: Sys, a: Action)
    requires Inv(q.s) && RingOk(q.s, q.ring) && NoEdit(q.s) && (a.Boot? || a.Create?)
    ensures Inv(Act(q, a).s) && RingOk(Act(q, a).s, Act(q, a).ring)
    ensures Act(q, a).s.cpus == Do(q.s, a).cpus && Act(q, a).s.exited == Do(q.s, a).exited
  {
    var s, t, s' := Do(q.s, a), |q.s.threads|, Act(q, a).s;
    var more := q.ring + [t];
    StepKeeps(q.s, a);
    NewLinked(q, a);
    assert t !in q.ring;
    LinkInv(s, q.ring, t, s');
    LinkCloses(s, q.ring, t, s', more);
    NewCpusIn(q, a, s, t, more);
    NewComplete(q, a, s, t, more);
    ClosedRingOk(s, s', more);
  }

  /** The links closed over the new ring, and everything else as before them. */
  lemma ClosedRingOk(s: State, s': State, ring: seq<Tid>)
    requires Linked(s', ring) && s'.cpus == s.cpus && s'.exited == s.exited && |s'.threads| == |s.threads|
    requires forall d: nat :: d < |s.cpus| ==> CpuIn(ring, s.cpus[d]) && !Editing(s.cpus[d].pc)
    requires Complete(s, ring)
    ensures RingOk(s', ring)
  {
    forall x: Tid | Leaving(s, x) ensures Leaving(s', x) {
      var d: nat :| d < |s.cpus| && s.cpus[d].pc.ExitUnlock? && s.cpus[d].current == x;
      assert s'.cpus[d] == s.cpus[d];
    }
  }

  // ----- Whole runs -----

  ghost predicate SysOk(q: Sys) { Inv(q.s) && RingOk(q.s, q.ring) && NoneExited(q.s) }

  /** What a scan is about to take has not exited. */
  lemma CalmTakesLive(q: Sys, a: Action)
    requires SysOk(q)
    ensures !TakesExited(q.s, a)
  {
    if a.Go? && a.c < |q.s.cpus| && q.s.cpus[a.c].pc.TryLock? {
      assert CpuIn(q.ring, q.s.cpus[a.c]) && Enqueued(q.s, q.s.cpus[a.c].pc.x);
    }
  }

  lemma SameNoneExited(s: State, s': State)
    requires NoneExited(s) && s'.cpus == s.cpus && s'.exited == s.exited
    ensures NoneExited(s')
  {
    forall c: nat, t: Tid | Has(s', c, t) ensures t !in s'.exited { assert Has(s, c, t); }
  }

  lemma CalmStep(q: Sys, a: Action)
    requires SysOk(q) && Calm(q, a)
    ensures SysOk(Act(q, a))
  {
    CalmTakesLive(q, a);
    StepKeeps(q.s, a);
    NoneExitedExactly(q.s, a);
    match a
    case Boot => EnqueueStays(q, a); SameNoneExited(Do(q.s, a), Act(q, a).s);
    case Create => EnqueueStays(q, a); SameNoneExited(Do(q.s, a), Act(q, a).s);
    case Relink(_, _, _) =>
    case Publish(_) =>
    case Tick(_) => EnterStays(q, a);
    case Exit(_) => EnterStays(q, a);
    case Go(c) => if c < |q.s.cpus| { CalmMicro(q, c); }
  }

  lemma CalmMicro(q: Sys, c: nat)
    requires SysOk(q) && c < |q.s.cpus| && Calm(q, Go(c))
    ensures RingOk(Micro(q.s, c), Act(q, Go(c)).ring)
  {
    var pc := q.s.cpus[c].pc;
    if pc.Visit? { VisitStays(q, c); }
    else if Scanning(pc) { ScanStays(q, c); }
    else if pc.Clear? || pc.Unlock? || pc.Adopt? || pc.Resume? { SwitchStays(q, c); }
    else if pc.ExitCheck? { CheckStays(q, c); }
    else if pc.ExitNext? { FirstWriteStays(q, c); }
    else if pc.ExitPrev? { SecondWriteStays(q, c); }
    else if !pc.Run? { StopStays(q, c); }
    else { assert CpuOk(q.s, q.s.cpus[c]); }
  }

  ghost predicate CalmRun(q: Sys, run: seq<Action>)
    decreases |run|
  {
    run == [] || (Calm(q, run[0]) && CalmRun(Act(q, run[0]), run[1..]))
  }

  function After(q: Sys, run: seq<Action>): Sys
    decreases |run|
  {
    if run == [] then q else After(Act(q, run[0]), run[1..])
  }

  lemma {:induction false} CalmRunOk(q: Sys, run: seq<Action>)
    requires SysOk(q) && CalmRun(q, run)
    ensures SysOk(After(q, run))
    decreases |run|
  {
    if run != [] {
      CalmStep(q, run[0]);
      CalmRunOk(Act(q, run[0]), run[1..]);
    }
  }

  /** The ring's members are exactly the threads that have neither exited nor just been unlinked. */
  lemma RingExact(q: Sys, t: Tid)
    requires SysOk(q)
    ensures t in q.ring <==> t < |q.s.threads| && t !in q.s.exited && !Leaving(q.s, t)
  {
    if t in q.ring {
      assert Enqueued(q.s, t);
      forall c: nat | c < |q.s.cpus| && q.s.cpus[c].pc.ExitUnlock? ensures q.s.cpus[c].current != t {
        assert CpuIn(q.ring, q.s.cpus[c]);
      }
    }
  }

  /** From power-on, on every run whose removals are serialised: no CPU has a thread that has exited and no
      scan takes one, and next and prev stay one cycle over exactly the threads that have not left. */
  lemma {:induction false} SerialisedRunsExclude(run: seq<Action>, q: Sys, a: Action, t: Tid)
    requires CalmRun(Sys(OFF, []), run) && q == After(Sys(OFF, []), run)
    ensures Exclusive(q.s) && NoneExited(q.s) && !TakesExited(q.s, a)
    ensures NextRing(q.s, q.ring) && PrevRing(q.s, q.ring)
    ensures t in q.ring <==> t < |q.s.threads| && t !in q.s.exited && !Leaving(q.s, t)
  {
    CalmRunOk(Sys(OFF, []), run);
    CalmTakesLive(q, a);
    RingExact(q, t);
  }
}
