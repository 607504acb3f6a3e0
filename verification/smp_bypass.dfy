/** Bounded bypass: while the ring is fixed, a thread that stays eligible is passed over by any one CPU
    fewer times than the ring has members, and no scan comes back empty-handed. */
module BoundedBypass {
  import opened Words
  import opened SmpScheduler
  import opened RunQueue
  import opened Sequences
  import opened SerialisedExits

  function Pos(ring: seq<Tid>, t: Tid): (r: nat)
    requires t in ring
    ensures r < |ring| && ring[r] == t
    decreases |ring|
  {
    if ring[0] == t then 0 else 1 + Pos(ring[1..], t)
  }

  lemma PosAt(ring: seq<Tid>, i: nat)
    requires Distinct(ring) && i < |ring|
    ensures Pos(ring, ring[i]) == i
  {
  }

  /** How far t is ahead of x, going forward round the ring. */
  function Dist(ring: seq<Tid>, x: Tid, t: Tid): (d: nat)
    requires x in ring && t in ring
    ensures d < |ring| && (d == 0 <==> x == t)
  {
    var i, j := Pos(ring, x), Pos(ring, t);
    if i <= j then j - i else j + |ring| - i
  }

  /** One step forward brings x one closer to anything but itself. */
  lemma NextCloser(s: State, ring: seq<Tid>, x: Tid, t: Tid)
    requires NextRing(s, ring) && x in ring && t in ring && x != t
    ensures x < |s.threads| && s.threads[x].next.Some? && s.threads[x].next.value in ring
    ensures Dist(ring, x, s.threads[x].next.value) == 1
    ensures Dist(ring, s.threads[x].next.value, t) == Dist(ring, x, t) - 1
  {
    var i := Pos(ring, x);
    assert NextAt(s, ring, i);
    PosAt(ring, Ahead(i, 1, |ring|));
  }

  /** x lies on the way from a to t. */
  predicate OnWay(ring: seq<Tid>, a: Tid, x: Tid, t: Tid)
  {
    a in ring && x in ring && t in ring && x != a && Dist(ring, a, x) + Dist(ring, x, t) == Dist(ring, a, t)
  }

  lemma OnWayNext(s: State, ring: seq<Tid>, a: Tid, x: Tid, t: Tid)
    requires NextRing(s, ring) && OnWay(ring, a, x, t) && x != t
    ensures x < |s.threads| && s.threads[x].next.Some? && OnWay(ring, a, s.threads[x].next.value, t)
  {
    NextCloser(s, ring, x, t);
  }

  /** CPU u is not past t: it runs another thread, and what it looks at or has taken lies on the way. */
  predicate Toward(ring: seq<Tid>, u: Cpu, t: Tid)
  {
    && u.current in ring && t in ring && u.current != t
    && match u.pc
       case Visit(at) => at.Some? && OnWay(ring, u.current, at.value, t)
       case CheckBlocked(x) => OnWay(ring, u.current, x, t)
       case CheckRunning(x) => OnWay(ring, u.current, x, t)
       case TryLock(x) => OnWay(ring, u.current, x, t)
       case Clear(x) => OnWay(ring, u.current, x, t) && x != t
       case Unlock(x) => OnWay(ring, u.current, x, t) && x != t
       case Adopt(x) => OnWay(ring, u.current, x, t) && x != t
       case _ => true
  }

  ghost predicate Fixed(q: Sys) { SysOk(q) && NoExits(q.s) }

  predicate Dispatch(s: State, a: Action, c: nat) { a == Go(c) && c < |s.cpus| && s.cpus[c].pc.Adopt? }

  ghost predicate NoExits(s: State) { forall d: nat :: d < |s.cpus| ==> !Exiting(s.cpus[d].pc) }

  lemma NoExitsStep(s: State, a: Action)
    requires NoExits(s) && (a.Tick? || a.Go?)
    ensures NoExits(Do(s, a))
  {
    if a.c < |s.cpus| { assert !Exiting(s.cpus[a.c].pc); }
  }

  lemma FixedCalm(q: Sys, a: Action)
    requires NoExits(q.s) && (a.Tick? || a.Go?)
    ensures Calm(q, a) && Act(q, a) == q.(s := Do(q.s, a))
  {
    if a.c < |q.s.cpus| { assert !Exiting(q.s.cpus[a.c].pc); }
    forall d: nat | d < |q.s.cpus| ensures !Editing(q.s.cpus[d].pc) { assert !Exiting(q.s.cpus[d].pc); }
  }

  lemma FixedStep(q: Sys, a: Action)
    requires Fixed(q) && (a.Tick? || a.Go?)
    ensures Fixed(q.(s := Do(q.s, a)))
  {
    NoExitsStep(q.s, a);
    FixedCalm(q, a);
    CalmStep(q, a);
  }

  /** CPU w becoming u keeps course for t; switched says it has taken up another thread. */
  predicate KeepsCourse(ring: seq<Tid>, w: Cpu, u: Cpu, t: Tid, switched: bool)
    requires Toward(ring, w, t)
  {
    && Toward(ring, u, t) && (w.pc.Visit? ==> u.pc.CheckBlocked?)
    && Dist(ring, u.current, t) + (if switched then 1 else 0) <= Dist(ring, w.current, t)
  }

  lemma TickStep(q: Sys, c: nat, t: Tid, u: Cpu)
    requires Fixed(q) && c < |q.s.cpus| && u == Do(q.s, Tick(c)).cpus[c] && Toward(q.ring, q.s.cpus[c], t)
    requires q.s.cpus[c].pc.Run?
    ensures KeepsCourse(q.ring, q.s.cpus[c], u, t, false)
  {
    assert CpuOk(q.s, q.s.cpus[c]);
    NextCloser(q.s, q.ring, q.s.cpus[c].current, t);
  }

  lemma ScanStep(q: Sys, c: nat, t: Tid, u: Cpu)
    requires Fixed(q) && c < |q.s.cpus| && u == Micro(q.s, c).cpus[c] && Scanning(q.s.cpus[c].pc)
    requires Eligible(q.s, t) && Eligible(Micro(q.s, c), t) && Toward(q.ring, q.s.cpus[c], t)
    ensures KeepsCourse(q.ring, q.s.cpus[c], u, t, false)
  {
    var w := q.s.cpus[c];
    assert CpuOk(q.s, w);
    if !w.pc.Visit? && w.pc.x != t { OnWayNext(q.s, q.ring, w.current, w.pc.x, t); }
  }

  lemma SwitchStep(q: Sys, c: nat, t: Tid, u: Cpu)
    requires Fixed(q) && c < |q.s.cpus| && u == Micro(q.s, c).cpus[c] && !Scanning(q.s.cpus[c].pc)
    requires Toward(q.ring, q.s.cpus[c], t)
    ensures KeepsCourse(q.ring, q.s.cpus[c], u, t, q.s.cpus[c].pc.Adopt?)
  {
    assert CpuOk(q.s, q.s.cpus[c]) && !Exiting(q.s.cpus[c].pc);
  }

  /** A step of CPU c itself. */
  lemma OwnStep(q: Sys, c: nat, t: Tid, a: Action, u: Cpu)
    requires Fixed(q) && c < |q.s.cpus| && (a == Tick(c) || a == Go(c)) && u == Do(q.s, a).cpus[c]
    requires Eligible(q.s, t) && Eligible(Do(q.s, a), t) && Toward(q.ring, q.s.cpus[c], t)
    requires a.Tick? ==> !q.s.cpus[c].pc.Visit?
    ensures KeepsCourse(q.ring, q.s.cpus[c], u, t, Dispatch(q.s, a, c))
  {
    if a.Go? {
      if Scanning(q.s.cpus[c].pc) { ScanStep(q, c, t, u); } else { SwitchStep(q, c, t, u); }
    } else if q.s.cpus[c].pc.Run? { TickStep(q, c, t, u); }
  }

  /** Another CPU's step leaves c where it is. */
  lemma OtherStep(s: State, c: nat, a: Action)
    requires c < |s.cpus| && (a.Tick? || a.Go?) && a.c != c
    ensures c < |Do(s, a).cpus| && Do(s, a).cpus[c] == s.cpus[c]
  {
    if a.Go? && a.c < |s.cpus| {
      match s.cpus[a.c].pc
      case Run => case Visit(_) => case CheckBlocked(_) => case CheckRunning(_) => case TryLock(_) =>
      case Clear(_) => case Unlock(_) => case Adopt(_) => case Resume => case ExitCheck => case ExitNext =>
      case ExitPrev => case ExitUnlock => case ExitDequeued => case ExitStop => case Park =>
    }
  }

  function Dispatches(s: State, run: seq<Action>, c: nat): nat
    decreases |run|
  {
    if run == [] then 0 else (if Dispatch(s, run[0], c) then 1 else 0) + Dispatches(Do(s, run[0]), run[1..], c)
  }

  predicate AlwaysEligible(s: State, run: seq<Action>, t: Tid)
    decreases |run|
  {
    Eligible(s, t) && (run != [] ==> AlwaysEligible(Do(s, run[0]), run[1..], t))
  }

  lemma {:induction false} Bypass(q: Sys, run: seq<Action>, c: nat, t: Tid)
    requires Fixed(q) && c < |q.s.cpus| && (forall a :: a in run ==> a.Tick? || a.Go?)
    requires AlwaysEligible(q.s, run, t) && Toward(q.ring, q.s.cpus[c], t)
    ensures Fixed(q.(s := Final(q.s, run))) && Eligible(Final(q.s, run), t)
    ensures c < |Final(q.s, run).cpus| && Toward(q.ring, Final(q.s, run).cpus[c], t)
    ensures Dispatches(q.s, run, c) + Dist(q.ring, Final(q.s, run).cpus[c].current, t)
            <= Dist(q.ring, q.s.cpus[c].current, t)
    decreases |run|
  {
    if run != [] {
      var a, s' := run[0], Do(q.s, run[0]);
      assert a in run;
      FixedStep(q, a);
      if a.c != c { OtherStep(q.s, c, a); }
      else if a.Go? || q.s.cpus[c].pc.Run? { OwnStep(q, c, t, a, s'.cpus[c]); }
      Bypass(q.(s := s'), run[1..], c, t);
    }
  }

  /** In every interleaving with a fixed ring, a CPU that is running a thread makes fewer than n - 1
      switches before an eligible member of an n-ring is taken by somebody. */
  lemma BypassBounded(q: Sys, run: seq<Action>, c: nat, t: Tid)
    requires Fixed(q) && c < |q.s.cpus| && q.s.cpus[c].pc.Run? && t in q.ring
    requires (forall a :: a in run ==> a.Tick? || a.Go?) && AlwaysEligible(q.s, run, t)
    ensures Dispatches(q.s, run, c) + 1 < |q.ring|
  {
    var u := q.s.cpus[c];
    assert CpuOk(q.s, u) && CpuIn(q.ring, u) && Has(q.s, c, u.current) && Enqueued(q.s, t);
    Bypass(q, run, c, t);
  }

  /** A scan begun while t is eligible does not come back empty-handed while t stays eligible. */
  lemma ScanFinds(q: Sys, run: seq<Action>, c: nat, t: Tid, s: State)
    requires Fixed(q) && c < |q.s.cpus| && q.s.cpus[c].pc.Run? && t in q.ring
    requires (forall b :: b in run ==> b.Tick? || b.Go?) && AlwaysEligible(q.s, run, t) && s == Final(q.s, run)
    requires c < |s.cpus| && s.cpus[c].pc.Visit? && Eligible(Do(s, Go(c)), t)
    ensures Do(s, Go(c)).cpus[c].pc.CheckBlocked?
  {
    var u := q.s.cpus[c];
    assert CpuOk(q.s, u) && CpuIn(q.ring, u) && Has(q.s, c, u.current) && Enqueued(q.s, t);
    Bypass(q, run, c, t);
    OwnStep(q.(s := s), c, t, Go(c), Do(s, Go(c)).cpus[c]);
  }
}
