/** Concurrent enqueues: any number of callers of sched_enqueue_thread, each taking the queue's spinlock
    by compare-and-swap and then doing its link writes one at a time. */
module QueueLock {
  import opened Words
  import opened Sequences
  import opened LinkedRing

  type Tid = nat

  /** The link words by thread, and the queue's two ends. */
  datatype Links = Links(next: map<Tid, Tid>, prev: map<Tid, Tid>, start: Option<Tid>, end: Option<Tid>)

  /** The links are one cycle over exactly ring, in order, and the ends are its ends. */
  ghost predicate Closed(l: Links, ring: seq<Tid>)
  {
    if ring == [] then l.start == None && l.end == None
    else Ring(l.next, l.prev, ring) && l.start == Some(ring[0]) && l.end == Some(ring[|ring| - 1])
  }

  const WRITES := 6

  /** The k-th write of the critical section, for thread t. */
  function Write(l: Links, t: Tid, k: nat): Links
  {
    if k == 0 then (if l.start == None || l.end == None then l.(start := Some(t), end := Some(t)) else l)
    else if l.start == None || l.end == None then l
    else if k == 1 then l.(prev := l.prev[t := l.end.value])
    else if k == 2 then l.(next := l.next[l.end.value := t])
    else if k == 3 then l.(end := Some(t))
    else if k == 4 then l.(next := l.next[t := l.start.value])
    else l.(prev := l.prev[l.start.value := t])
  }

  /** The links after the first k writes. */
  function Written(l: Links, t: Tid, k: nat): Links
    decreases k
  {
    if k == 0 then l else Write(Written(l, t, k - 1), t, k - 1)
  }

  /** What the writes come to: first is the queue's start, or t itself when the queue is empty, and last
      likewise its end. */
  lemma {:induction false} SixWrites(l: Links, t: Tid, first: Tid, last: Tid)
    requires if l.start == None || l.end == None then first == t && last == t
             else l.start == Some(first) && l.end == Some(last)
    ensures Written(l, t, WRITES) ==
      Links(l.next[last := t][t := first], l.prev[t := last][first := t], Some(first), Some(t))
  {
    var w := Written(l, t, 6);
    assert w == Write(Write(Write(Write(Write(Write(l, t, 0), t, 1), t, 2), t, 3), t, 4), t, 5);
  }

  /** All the writes together append t. */
  lemma {:induction false} WritesAppend(l: Links, ring: seq<Tid>, t: Tid)
    requires Closed(l, ring) && t !in ring
    ensures Closed(Written(l, t, WRITES), ring + [t])
  {
    var w := Written(l, t, WRITES);
    if ring == [] {
      SixWrites(l, t, t, t);
      assert LinkAt(w.next, w.prev, [t], 0);
    } else {
      var n := |ring|;
      SixWrites(l, t, ring[0], ring[n - 1]);
      assert w.next == l.next[t := ring[0]][ring[n - 1] := t];
      assert w.prev == l.prev[ring[0] := t][t := ring[n - 1]];
      InsertRing(l.next, l.prev, ring, n - 1, t, ring[0], w.next, w.prev);
      assert InsertAfter(ring, n - 1, t) == ring + [t];
    }
  }

  // ----- The protocol -----

  /** Where a caller is; Writing(k) has k writes done. */
  datatype Pc = Ready | Spinning | Writing(k: nat) | Releasing | Flagging | Done

  /** Caller j enqueues thread who[j]. base is the links as the lock's holder found them; first the queue
      at the start, and ring that queue with the threads appended since, in the order in which their
      callers got the lock. */
  datatype State = State(who: seq<Tid>, links: Links, lock: bool, pcs: seq<Pc>, enqueued: set<Tid>, base: Links,
                         first: seq<Tid>, ring: seq<Tid>)

  function Step(s: State, j: nat): State
  {
    if j >= |s.pcs| || j >= |s.who| then s
    else
      var t := s.who[j];
      match s.pcs[j]
      case Ready => s.(pcs := s.pcs[j := if t in s.enqueued then Done else Spinning])
      case Spinning => if s.lock then s else s.(lock := true, base := s.links, pcs := s.pcs[j := Writing(0)])
      case Writing(k) =>
        if k < WRITES then s.(links := Write(s.links, t, k), pcs := s.pcs[j := Writing(k + 1)])
        else s.(ring := s.ring + [t], pcs := s.pcs[j := Releasing])
      case Releasing => s.(lock := false, pcs := s.pcs[j := Flagging])
      case Flagging => s.(enqueued := s.enqueued + {t}, pcs := s.pcs[j := Done])
      case Done => s
  }

  predicate Inside(pc: Pc) { pc.Writing? || pc.Releasing? }

  predicate Appended(pc: Pc) { pc.Releasing? || pc.Flagging? || pc.Done? }

  ghost predicate OneInside(s: State)
  {
    && (forall i: nat, j: nat :: i < |s.pcs| && j < |s.pcs| && Inside(s.pcs[i]) && Inside(s.pcs[j]) ==> i == j)
    && (s.lock <==> exists i: nat :: i < |s.pcs| && Inside(s.pcs[i]))
  }

  /** The holder's progress accounts for the links; with no holder they are closed over r. */
  ghost predicate LinksAt(s: State, r: seq<Tid>)
    requires |s.who| == |s.pcs|
  {
    && (forall j: nat :: j < |s.pcs| && s.pcs[j].Writing? ==>
          s.pcs[j].k <= WRITES && Closed(s.base, r) && s.links == Written(s.base, s.who[j], s.pcs[j].k))
    && ((forall j: nat :: j < |s.pcs| ==> !s.pcs[j].Writing?) ==> Closed(s.links, r))
  }

  /** Where caller j is tells whether its thread has been appended and flagged. */
  predicate CallerOk(s: State, j: nat)
    requires j < |s.pcs| == |s.who|
  {
    var t, pc := s.who[j], s.pcs[j];
    && (t in s.first ==> pc.Ready? || pc.Done?)
    && (t !in s.first ==> (t in s.ring <==> Appended(pc)))
    && (t in s.enqueued <==> t in s.first || pc.Done?)
  }

  /** t was queued at the start, or its caller has been through. */
  ghost predicate Origin(s: State, t: Tid)
    requires |s.who| == |s.pcs|
  {
    t in s.first || exists j: nat :: j < |s.who| && s.who[j] == t && Appended(s.pcs[j])
  }

  /** Only for threads that are queued at the start is there more than one caller. */
  predicate Unrepeated(who: seq<Tid>, first: seq<Tid>)
  {
    forall i, j :: 0 <= i < j < |who| && who[i] == who[j] ==> who[i] in first
  }

  /** The queue is what it was at the start, followed by the threads whose callers have been through. */
  ghost predicate RingExact(s: State)
  {
    && |s.who| == |s.pcs| && Unrepeated(s.who, s.first) && Distinct(s.ring) && s.first <= s.ring
    && (forall j: nat :: j < |s.pcs| ==> CallerOk(s, j)) && (forall t :: t in s.ring ==> Origin(s, t))
  }

  ghost predicate Inv(s: State) { RingExact(s) && OneInside(s) && LinksAt(s, s.ring) }

  lemma StepOneInside(s: State, j: nat)
    requires OneInside(s) && j < |s.pcs| == |s.who|
    ensures OneInside(Step(s, j))
  {
    var s' := Step(s, j);
    if s.pcs[j].Spinning? && !s.lock { assert Inside(s'.pcs[j]); }
    if s.pcs[j].Writing? { assert Inside(s.pcs[j]) && Inside(s'.pcs[j]); }
    if s.pcs[j].Releasing? { assert Inside(s.pcs[j]); }
    if exists i: nat :: i < |s.pcs| && Inside(s.pcs[i]) {
      var i: nat :| i < |s.pcs| && Inside(s.pcs[i]);
      if i != j { assert s'.pcs[i] == s.pcs[i]; }
    }
  }

  lemma WriterLinks(s: State, j: nat, r: seq<Tid>, r': seq<Tid>)
    requires OneInside(s) && j < |s.pcs| == |s.who| && LinksAt(s, r) && s.pcs[j].Writing?
    requires if s.pcs[j] == Writing(WRITES) then Closed(Written(s.base, s.who[j], WRITES), r') else r' == r
    ensures LinksAt(Step(s, j), r')
  {
    var s' := Step(s, j);
    assert Inside(s.pcs[j]);
    forall i: nat | i < |s.pcs| && i != j ensures !s'.pcs[i].Writing? { assert s'.pcs[i] == s.pcs[i]; }
    if s.pcs[j].k < WRITES { assert s'.pcs[j].Writing?; }
  }

  lemma SpinnerLinks(s: State, j: nat, r: seq<Tid>)
    requires OneInside(s) && j < |s.pcs| == |s.who| && LinksAt(s, r) && s.pcs[j].Spinning?
    ensures LinksAt(Step(s, j), r)
  {
    var s' := Step(s, j);
    if !s.lock {
      assert forall i: nat :: i < |s.pcs| ==> !Inside(s.pcs[i]);
      forall i: nat | i < |s.pcs| && i != j ensures !s'.pcs[i].Writing? { assert s'.pcs[i] == s.pcs[i]; }
      assert Written(s.links, s.who[j], 0) == s.links && s'.pcs[j].Writing?;
    }
  }

  lemma StepLinks(s: State, j: nat, r: seq<Tid>, r': seq<Tid>)
    requires OneInside(s) && j < |s.pcs| == |s.who| && LinksAt(s, r)
    requires if s.pcs[j] == Writing(WRITES) then Closed(Written(s.base, s.who[j], WRITES), r') else r' == r
    ensures LinksAt(Step(s, j), r')
  {
    if s.pcs[j].Writing? { WriterLinks(s, j, r, r'); }
    else if s.pcs[j].Spinning? { SpinnerLinks(s, j, r); }
    else {
      var s' := Step(s, j);
      assert forall i: nat :: i < |s.pcs| ==>
        (s'.pcs[i].Writing? <==> s.pcs[i].Writing?) && (s.pcs[i].Writing? ==> s'.pcs[i] == s.pcs[i]);
    }
  }

  lemma StepCallers(s: State, j: nat)
    requires Inv(s) && j < |s.pcs|
    ensures forall i: nat :: i < |s.pcs| ==> CallerOk(Step(s, j), i)
  {
    var s' := Step(s, j);
    assert CallerOk(s, j);
    forall i: nat | i < |s.pcs| ensures CallerOk(s', i) {
      assert CallerOk(s, i);
      if i != j && s.who[i] == s.who[j] { assert s.who[i] in s.first; }
    }
  }

  lemma StepOrigin(s: State, j: nat, t: Tid)
    requires Inv(s) && j < |s.pcs| && t in Step(s, j).ring
    ensures Origin(Step(s, j), t)
  {
    var s' := Step(s, j);
    if t !in s.ring { assert s'.who[j] == t && Appended(s'.pcs[j]); }
    else if t !in s.first {
      assert Origin(s, t);
      var i: nat :| i < |s.who| && s.who[i] == t && Appended(s.pcs[i]);
      assert s'.who[i] == t && Appended(s'.pcs[i]);
    }
  }

  lemma StepRing(s: State, j: nat)
    requires Inv(s) && j < |s.pcs|
    ensures RingExact(Step(s, j))
  {
    assert CallerOk(s, j);
    StepCallers(s, j);
    forall t | t in Step(s, j).ring ensures Origin(Step(s, j), t) { StepOrigin(s, j, t); }
  }

  function After(s: State, run: seq<nat>): State
    decreases |run|
  {
    if run == [] then s else After(Step(s, run[0]), run[1..])
  }

  lemma {:induction false} RunsKeep(s: State, run: seq<nat>)
    requires Inv(s)
    ensures Inv(After(s, run))
    decreases |run|
  {
    if run != [] {
      if run[0] < |s.pcs| {
        StepOneInside(s, run[0]);
        if s.pcs[run[0]] == Writing(WRITES) {
          assert CallerOk(s, run[0]);
          WritesAppend(s.base, s.ring, s.who[run[0]]);
        }
        StepLinks(s, run[0], s.ring, Step(s, run[0]).ring);
        StepRing(s, run[0]);
      }
      RunsKeep(Step(s, run[0]), run[1..]);
    }
  }

  /** Callers about to enqueue the threads who on a queue of the threads first. */
  function Calling(who: seq<Tid>, links: Links, first: seq<Tid>): State
  {
    State(who, links, false, seq(|who|, _ => Ready), (set t | t in first), links, first, first)
  }

  /** Threads enqueued on any queue, those not in it by one caller each, in every interleaving: one caller at most
      is inside, and whenever the lock is free the links are one cycle over exactly the threads that were
      queued and, behind them, those whose callers have been through, in the order they got the lock. */
  lemma {:induction false} EnqueuesAreAtomic(who: seq<Tid>, links: Links, first: seq<Tid>, run: seq<nat>, s: State)
    requires Unrepeated(who, first) && Distinct(first) && Closed(links, first)
    requires s == After(Calling(who, links, first), run)
    ensures OneInside(s) && RingExact(s) && (!s.lock ==> Closed(s.links, s.ring))
  {
    var s0 := Calling(who, links, first);
    assert forall j: nat :: j < |s0.pcs| ==> CallerOk(s0, j);
    RunsKeep(s0, run);
    if !s.lock { assert forall j: nat :: j < |s.pcs| ==> !Inside(s.pcs[j]); }
  }

  // ----- One thread enqueued twice -----

  /** The flag is tested before the lock is taken, so two callers with one thread can both get to the
      writes; those of the second keep the queue exactly when the thread is alone in it. */
  lemma {:induction false} SecondAppend(l: Links, ring: seq<Tid>, t: Tid)
    requires Closed(l, ring) && Distinct(ring) && t in ring
    ensures Closed(Written(l, t, WRITES), ring) <==> ring == [t]
  {
    var n, w := |ring|, Written(l, t, WRITES);
    SixWrites(l, t, ring[0], ring[n - 1]);
    if n == 1 {
      assert ring == [t];
      assert LinkAt(w.next, w.prev, ring, 0);
    } else {
      assert w.end == Some(t) && w.next[t] == ring[0] && w.prev[ring[0]] == t;
      if t == ring[n - 1] {
        assert w.prev[t] == t != ring[n - 2];
        assert !LinkAt(w.next, w.prev, ring, n - 2);
      }
    }
  }

  /** With the last thread of a longer queue, they leave no queue at all; with the first, that thread alone. */
  lemma {:induction false} AgainAtTheEnd(l: Links, ring: seq<Tid>, t: Tid, r: seq<Tid>)
    requires Closed(l, ring) && |ring| > 1 && t == ring[|ring| - 1] && ring[0] != t
    ensures !Closed(Written(l, t, WRITES), r)
  {
    SixWrites(l, t, ring[0], t);
    if Closed(Written(l, t, WRITES), r) { EndsApart(Written(l, t, WRITES), r); }
  }

  lemma EndsApart(l: Links, r: seq<Tid>)
    requires Closed(l, r) && l.start != l.end
    ensures l.end.Some? && l.end.value in l.prev && l.prev[l.end.value] != l.end.value
  {
    assert LinkAt(l.next, l.prev, r, |r| - 2);
  }

  lemma {:induction false} AgainAtTheStart(l: Links, ring: seq<Tid>, t: Tid, r: seq<Tid>)
    requires Closed(l, ring) && |ring| > 1 && t == ring[0] && Closed(Written(l, t, WRITES), r)
    ensures r == [t]
  {
    SixWrites(l, t, t, ring[|ring| - 1]);
    assert r[0] == r[|r| - 1] == t;
  }

  // ----- Exactly which calls can be made -----

  /** With the lock free, the links are one cycle over the old queue and the threads whose callers have been
      through. */
  ghost predicate Kept(s: State)
  {
    |s.who| == |s.pcs| && (!s.lock ==> exists r :: Holds(s, r))
  }

  ghost predicate Holds(s: State, r: seq<Tid>)
    requires |s.who| == |s.pcs|
  {
    Closed(s.links, r) && forall t :: t in r <==> Origin(s, t)
  }

  /** Caller j, n times. */
  function Turns(j: nat, n: nat): seq<nat> { seq(n, _ => j) }

  lemma {:induction false} AfterSplit(s: State, a: seq<nat>, b: seq<nat>)
    ensures After(s, a + b) == After(After(s, a), b)
    decreases |a|
  {
    if a == [] { assert a + b == b; }
    else {
      assert (a + b)[0] == a[0] && (a + b)[1..] == a[1..] + b;
      AfterSplit(Step(s, a[0]), a[1..], b);
    }
  }

  lemma AfterTurn(s: State, j: nat, n: nat)
    requires n > 0
    ensures After(s, Turns(j, n)) == After(Step(s, j), Turns(j, n - 1))
  {
    assert Turns(j, n)[1..] == Turns(j, n - 1);
  }

  /** s with caller j at its k-th write. */
  function WritingAt(s: State, j: nat, k: nat, l: Links): State
    requires j < |s.pcs|
  {
    s.(links := l, pcs := s.pcs[j := Writing(k)])
  }

  lemma WriteStep(s: State, j: nat, k: nat, l: Links)
    requires j < |s.pcs| == |s.who| && k < WRITES
    ensures Step(WritingAt(s, j, k, l), j) == WritingAt(s, j, k + 1, Write(l, s.who[j], k))
  {
    assert s.pcs[j := Writing(k)][j := Writing(k + 1)] == s.pcs[j := Writing(k + 1)];
  }

  lemma {:induction false} WriteRun(s: State, j: nat, k: nat, m: nat, l: Links)
    requires j < |s.pcs| == |s.who| && k + m <= WRITES
    ensures After(WritingAt(s, j, k, Written(l, s.who[j], k)), Turns(j, m))
            == WritingAt(s, j, k + m, Written(l, s.who[j], k + m))
    decreases m
  {
    if m > 0 {
      AfterTurn(WritingAt(s, j, k, Written(l, s.who[j], k)), j, m);
      WriteStep(s, j, k, Written(l, s.who[j], k));
      WriteRun(s, j, k + 1, m - 1, l);
    }
  }

  const THROUGH := WRITES + 3

  /** A caller that waits for a free lock goes through. */
  lemma {:induction false} GoesThrough(s: State, j: nat, t: Tid, s': State)
    requires j < |s.pcs| == |s.who| && s.pcs[j] == Spinning && !s.lock && t == s.who[j]
    requires s' == After(s, Turns(j, THROUGH))
    ensures s' == s.(links := Written(s.links, t, WRITES), pcs := s.pcs[j := Flagging], base := s.links,
                     ring := s.ring + [t])
  {
    var a := s.(lock := true, base := s.links);
    AfterTurn(s, j, THROUGH);
    assert Step(s, j) == WritingAt(a, j, 0, s.links);
    assert Turns(j, THROUGH - 1) == Turns(j, WRITES) + Turns(j, 2);
    AfterSplit(WritingAt(a, j, 0, s.links), Turns(j, WRITES), Turns(j, 2));
    WriteRun(a, j, 0, WRITES, s.links);
    Leaves(a, j, t, Written(s.links, t, WRITES), s');
    assert s'.pcs == s.pcs[j := Flagging];
  }

  /** The writes done, the lock is given up. */
  lemma Leaves(a: State, j: nat, t: Tid, l: Links, s': State)
    requires j < |a.pcs| == |a.who| && t == a.who[j] && s' == After(WritingAt(a, j, WRITES, l), Turns(j, 2))
    ensures s' == a.(links := l, lock := false, pcs := a.pcs[j := Flagging], ring := a.ring + [t])
  {
    var b := WritingAt(a, j, WRITES, l);
    AfterTurn(b, j, 2);
    AfterTurn(Step(b, j), j, 1);
    assert s'.pcs == a.pcs[j := Flagging];
  }

  /** i and j have both found the flag clear; i goes through, and k if it is another, and then j. */
  function BadRun(i: nat, j: nat, k: nat): seq<nat>
  {
    [i, j] + (Turns(i, THROUGH) + ((if k == i then [] else [k] + Turns(k, THROUGH)) + Turns(j, THROUGH)))
  }

  lemma BothPass(s: State, i: nat, j: nat)
    requires i < |s.pcs| == |s.who| && j < |s.pcs| && i != j && s.pcs[i] == s.pcs[j] == Ready
    requires s.who[i] !in s.enqueued && s.who[j] !in s.enqueued
    ensures After(s, [i, j]) == s.(pcs := s.pcs[i := Spinning][j := Spinning])
  {
    var a := Step(s, i);
    assert [i, j][1..] == [j] && [j][1..] == [];
    assert After(a, [j]) == Step(a, j);
  }

  /** On a queue with a thread in it. */
  lemma {:induction false} SecondCallerBreaks(who: seq<Tid>, links: Links, first: seq<Tid>, i: nat, j: nat, t: Tid)
    requires Distinct(first) && Closed(links, first) && first != []
    requires i < j < |who| && who[i] == who[j] == t && t !in first
    ensures !Kept(After(Calling(who, links, first), BadRun(i, j, i)))
  {
    var s0 := Calling(who, links, first);
    var a := After(s0, [i, j]);
    BothPass(s0, i, j);
    var b := After(a, Turns(i, THROUGH));
    GoesThrough(a, i, t, b);
    WritesAppend(links, first, t);
    var c := After(b, Turns(j, THROUGH));
    GoesThrough(b, j, t, c);
    assert [] + Turns(j, THROUGH) == Turns(j, THROUGH);
    AfterSplit(s0, [i, j], Turns(i, THROUGH) + ([] + Turns(j, THROUGH)));
    AfterSplit(a, Turns(i, THROUGH), [] + Turns(j, THROUGH));
    forall r ensures !Holds(c, r) { AgainAtTheEnd(b.links, first + [t], t, r); }
  }

  lemma {:induction false} ThirdPasses(s: State, k: nat)
    requires k < |s.pcs| == |s.who| && s.pcs[k] == Ready && s.who[k] !in s.enqueued
    ensures After(s, [k]) == s.(pcs := s.pcs[k := Spinning])
  {
    assert [k][1..] == [];
  }

  /** On an empty one, with a caller for another thread between the two. */
  lemma {:induction false} SecondCallerDrops(who: seq<Tid>, links: Links, i: nat, j: nat, k: nat, t: Tid, u: Tid,
                                             c: State)
    requires Closed(links, []) && c == After(Calling(who, links, []), BadRun(i, j, k))
    requires i < j < |who| && who[i] == who[j] == t && k < |who| && who[k] == u != t
    ensures |c.pcs| == |who| && c.who == who && !c.lock && Appended(c.pcs[k])
    ensures c.links == Written(Written(Written(links, t, WRITES), u, WRITES), t, WRITES)
  {
    var s0, ti, tk, tj := Calling(who, links, []), Turns(i, THROUGH), Turns(k, THROUGH), Turns(j, THROUGH);
    var a := After(s0, [i, j]);
    BothPass(s0, i, j);
    var b := After(a, ti);
    GoesThrough(a, i, t, b);
    var d := After(b, [k]);
    ThirdPasses(b, k);
    var e := After(d, tk);
    GoesThrough(d, k, u, e);
    GoesThrough(e, j, t, After(e, tj));
    AfterSplit(s0, [i, j], ti + ([k] + tk + tj));
    AfterSplit(a, ti, [k] + tk + tj);
    assert [k] + tk + tj == [k] + (tk + tj);
    AfterSplit(b, [k], tk + tj);
    AfterSplit(d, tk, tj);
  }

  lemma {:induction false} DroppedBreaks(who: seq<Tid>, links: Links, i: nat, j: nat, k: nat)
    requires Closed(links, []) && i < j < |who| && who[i] == who[j] && k < |who| && who[k] != who[i]
    ensures !Kept(After(Calling(who, links, []), BadRun(i, j, k)))
  {
    var t, u, c := who[i], who[k], After(Calling(who, links, []), BadRun(i, j, k));
    SecondCallerDrops(who, links, i, j, k, t, u, c);
    WritesAppend(links, [], t);
    var l := Written(links, t, WRITES);
    assert [] + [t] == [t];
    WritesAppend(l, [t], u);
    assert [t] + [u] == [t, u];
    assert Origin(c, u);
    forall r ensures !Holds(c, r) {
      if Closed(c.links, r) { AgainAtTheStart(Written(l, u, WRITES), [t, u], t, r); }
    }
  }

  // ----- One thread alone -----

  ghost predicate AnyThrough(s: State) { exists j: nat :: j < |s.pcs| && Appended(s.pcs[j]) }

  ghost function Sole(s: State, t: Tid): seq<Tid> { if AnyThrough(s) then [t] else [] }

  /** Every caller enqueues t, on an empty queue. */
  ghost predicate SameInv(s: State, t: Tid)
  {
    && |s.who| == |s.pcs| && (forall j: nat :: j < |s.who| ==> s.who[j] == t) && s.first == [] && OneInside(s)
    && (s.enqueued != {} ==> AnyThrough(s)) && LinksAt(s, Sole(s, t))
  }

  /** The writes for t, with nothing or t in the queue. */
  lemma SoleAppend(l: Links, r: seq<Tid>, t: Tid)
    requires Closed(l, r) && (r == [] || r == [t])
    ensures Closed(Written(l, t, WRITES), [t])
  {
    if r == [] { WritesAppend(l, r, t); assert [] + [t] == [t]; } else { SecondAppend(l, r, t); }
  }

  lemma ThroughStays(s: State, j: nat)
    requires j < |s.pcs| == |s.who|
    ensures AnyThrough(s) ==> AnyThrough(Step(s, j))
    ensures Appended(Step(s, j).pcs[j]) ==> AnyThrough(Step(s, j))
    ensures !Appended(Step(s, j).pcs[j]) ==> (AnyThrough(Step(s, j)) <==> AnyThrough(s))
  {
    var s' := Step(s, j);
    if AnyThrough(s) {
      var i: nat :| i < |s.pcs| && Appended(s.pcs[i]);
      assert Appended(s'.pcs[i]);
    }
    if AnyThrough(s') && !Appended(s'.pcs[j]) {
      var i: nat :| i < |s'.pcs| && Appended(s'.pcs[i]);
      assert Appended(s.pcs[i]);
    }
  }

  lemma {:induction false} StepSame(s: State, j: nat, t: Tid)
    requires SameInv(s, t) && j < |s.pcs|
    ensures SameInv(Step(s, j), t)
  {
    StepOneInside(s, j);
    ThroughStays(s, j);
    if s.pcs[j] == Writing(WRITES) { SoleAppend(s.base, Sole(s, t), t); }
    assert s.pcs[j].Releasing? || s.pcs[j].Flagging? || s.pcs[j].Done? ==> AnyThrough(s);
    StepLinks(s, j, Sole(s, t), Sole(Step(s, j), t));
  }

  lemma {:induction false} RunsSame(s: State, run: seq<nat>, t: Tid)
    requires SameInv(s, t)
    ensures SameInv(After(s, run), t)
    decreases |run|
  {
    if run != [] {
      if run[0] < |s.pcs| { StepSame(s, run[0], t); }
      RunsSame(Step(s, run[0]), run[1..], t);
    }
  }

  lemma {:induction false} SameKept(who: seq<Tid>, links: Links, run: seq<nat>, t: Tid)
    requires Closed(links, []) && forall j :: 0 <= j < |who| ==> who[j] == t
    ensures Kept(After(Calling(who, links, []), run))
  {
    var s := After(Calling(who, links, []), run);
    RunsSame(Calling(who, links, []), run, t);
    if !s.lock {
      assert forall j: nat :: j < |s.pcs| ==> !Inside(s.pcs[j]);
      assert Holds(s, Sole(s, t));
    }
  }

  // ----- The exact condition -----

  predicate AllSame(who: seq<Tid>) { forall i, j :: 0 <= i < j < |who| ==> who[i] == who[j] }

  lemma {:induction false} UnrepeatedKept(who: seq<Tid>, links: Links, first: seq<Tid>, run: seq<nat>)
    requires Distinct(first) && Closed(links, first) && Unrepeated(who, first)
    ensures Kept(After(Calling(who, links, first), run))
  {
    var s := After(Calling(who, links, first), run);
    EnqueuesAreAtomic(who, links, first, run, s);
    if !s.lock {
      forall t | Origin(s, t) ensures t in s.ring {
        if t !in s.first {
          var j: nat :| j < |s.who| && s.who[j] == t && Appended(s.pcs[j]);
          assert CallerOk(s, j);
        }
      }
      assert Holds(s, s.ring);
    }
  }

  /** Callers of any threads, on any queue: in every interleaving the queue is kept, if and only if no thread that
      is not yet queued has two callers, or the queue is empty and there is but one thread. */
  lemma {:induction false} EnqueuesExactly(who: seq<Tid>, links: Links, first: seq<Tid>)
    requires Distinct(first) && Closed(links, first)
    ensures (forall run :: Kept(After(Calling(who, links, first), run)))
            <==> Unrepeated(who, first) || (first == [] && AllSame(who))
  {
    if Unrepeated(who, first) {
      forall run ensures Kept(After(Calling(who, links, first), run)) { UnrepeatedKept(who, links, first, run); }
    } else if first == [] && AllSame(who) {
      forall run ensures Kept(After(Calling(who, links, first), run)) { SameKept(who, links, run, who[0]); }
    } else {
      var i, j :| 0 <= i < j < |who| && who[i] == who[j] && who[i] !in first;
      if first != [] { SecondCallerBreaks(who, links, first, i, j, who[i]); }
      else {
        var k := Another(who, i);
        DroppedBreaks(who, links, i, j, k);
      }
    }
  }

  lemma Another(who: seq<Tid>, i: nat) returns (k: nat)
    requires !AllSame(who) && i < |who|
    ensures k < |who| && who[k] != who[i]
  {
    var a, b :| 0 <= a < b < |who| && who[a] != who[b];
    k := if who[a] == who[i] then b else a;
  }
}
