/** Thread records used again: dequeue_and_die frees the record of the thread that exits, and the allocator can
    hand it out for a new thread. One CPU per record on every run, exactly when no CPU has the record then. */
module RecordReuse {
  import opened Words
  import opened SmpScheduler
  import opened SchedulerRace

  /** freed are the records given back to the heap and not handed out since. */
  datatype Heap = Heap(s: State, freed: set<Tid>)

  /** A step of the scheduler, or a new thread made in a freed record. */
  datatype Event = Plain(a: Action) | Reuse(t: Tid)

  function Renew(s: State, t: Tid): State
    requires t < |s.threads|
  {
    State(s.threads[t := NEW], s.cpus, s.exited - {t}, s.stranded - {t})
  }

  function Next(h: Heap, e: Event): Heap
  {
    match e
    case Plain(a) =>
      var frees := a.Go? && a.c < |h.s.cpus| && h.s.cpus[a.c].pc.Park?;
      Heap(Do(h.s, a), if frees then h.freed + {h.s.cpus[a.c].current} else h.freed)
    case Reuse(t) => if t in h.freed && t < |h.s.threads| then Heap(Renew(h.s, t), h.freed - {t}) else h
  }

  /** Freed records are those of ordinary threads. */
  ghost predicate HeapOk(h: Heap)
  {
    Inv(h.s) && forall t :: t in h.freed ==> t < |h.s.threads| && !h.s.threads[t].blocked
  }

  lemma BlockedStays(s: State, a: Action, t: Tid)
    requires Inv(s) && t < |s.threads|
    ensures t < |Do(s, a).threads| && Do(s, a).threads[t].blocked == s.threads[t].blocked
  {
    if a.Go? && a.c < |s.cpus| { assert CpuOk(s, s.cpus[a.c]); }
  }

  lemma PlainKeeps(h: Heap, a: Action)
    requires HeapOk(h)
    ensures HeapOk(Next(h, Plain(a)))
  {
    StepKeeps(h.s, a);
    var h' := Next(h, Plain(a));
    forall t | t in h'.freed ensures t < |h'.s.threads| && !h'.s.threads[t].blocked {
      if t !in h.freed { assert CpuOk(h.s, h.s.cpus[a.c]); }
      BlockedStays(h.s, a, t);
    }
  }

  // ----- One reuse -----

  lemma RenewExclusive(s: State, t: Tid)
    requires Inv(s) && t < |s.threads| && !s.threads[t].blocked && !Owned(s, t)
    ensures Exclusive(Renew(s, t))
  {
    var s' := Renew(s, t);
    assert forall c: nat, k: Tid :: Has(s', c, k) <==> Has(s, c, k);
    forall k: Tid ensures Owned(s', k) <==> Owned(s, k) {
      if Owned(s, k) { var d: nat :| Has(s, d, k); assert Has(s', d, k); }
    }
  }

  /** A record that no CPU has can be used again. */
  lemma RenewKeeps(s: State, t: Tid)
    requires Inv(s) && t < |s.threads| && !s.threads[t].blocked && !Owned(s, t)
    ensures Inv(Renew(s, t))
  {
    RenewExclusive(s, t);
    var s' := Renew(s, t);
    forall c: nat | c < |s'.cpus| ensures CpuOk(s', s'.cpus[c]) { assert CpuOk(s, s.cpus[c]); }
  }

  lemma TwoSteps(s: State, a: Action, b: Action)
    ensures Final(s, [a, b]) == Do(Do(s, a), b)
  {
    assert [a, b][1..] == [b] && [b][1..] == [];
    assert Final(Do(s, a), [b]) == Do(Do(s, a), b);
  }

  /** A CPU that comes up, and whose scan comes to t. */
  function Arrival(s: State, t: Tid): seq<Action>
  {
    [Boot, Relink(|s.threads|, Some(t), None), Tick(|s.cpus|)]
  }

  const CHECKS := 4

  function Newcomer(s: State, t: Tid): seq<Action> { Arrival(s, t) + seq(CHECKS, _ => Go(|s.cpus|)) }

  /** s with one more CPU, at pc, and t there to be taken. */
  predicate Joined(s: State, s': State, t: Tid, pc: Pc)
  {
    && s'.cpus == s.cpus + [Cpu(|s.threads|, |s.threads|, pc)] && t < |s.threads| < |s'.threads|
    && (Eligible(s', t) || pc == Clear(t))
  }

  lemma {:induction false} Arrives(s: State, t: Tid)
    requires Eligible(s, t)
    ensures Joined(s, Final(s, Arrival(s, t)), t, Visit(Some(t)))
  {
    var link, tick := Relink(|s.threads|, Some(t), None), Tick(|s.cpus|);
    var s2 := Do(Do(s, Boot), link);
    assert Arrival(s, t) == [Boot, link] + [tick] && [tick][1..] == [];
    FinalAppend(s, [Boot, link], [tick]);
    TwoSteps(s, Boot, link);
    assert Final(s2, [tick]) == Do(s2, tick);
  }

  /** What the scan of the newcomer finds. */
  function Then(pc: Pc, t: Tid): Pc
  {
    match pc
    case Visit(_) => CheckBlocked(t)
    case CheckBlocked(_) => CheckRunning(t)
    case CheckRunning(_) => TryLock(t)
    case _ => Clear(t)
  }

  lemma ChecksOut(s: State, s': State, t: Tid, pc: Pc)
    requires Joined(s, s', t, pc) && pc in {Visit(Some(t)), CheckBlocked(t), CheckRunning(t), TryLock(t)}
    ensures Joined(s, Do(s', Go(|s.cpus|)), t, Then(pc, t))
  {
    var u := s'.cpus[|s.cpus|];
    assert Do(s', Go(|s.cpus|)).cpus == s.cpus + [u.(pc := Then(pc, t))];
  }

  lemma {:induction false} FourChecks(s: State, s': State, t: Tid)
    requires Joined(s, s', t, Visit(Some(t)))
    ensures Joined(s, Final(s', seq(CHECKS, _ => Go(|s.cpus|))), t, Clear(t))
  {
    var a, run := Go(|s.cpus|), seq(CHECKS, _ => Go(|s.cpus|));
    ChecksOut(s, s', t, Visit(Some(t)));
    ChecksOut(s, Do(s', a), t, CheckBlocked(t));
    ChecksOut(s, Do(Do(s', a), a), t, CheckRunning(t));
    ChecksOut(s, Do(Do(Do(s', a), a), a), t, TryLock(t));
    assert run == [a, a] + [a, a];
    FinalAppend(s', [a, a], [a, a]);
    TwoSteps(s', a, a);
    TwoSteps(Do(Do(s', a), a), a, a);
  }

  /** It takes a record that is not locked, blocked or running. */
  lemma {:induction false} NewcomerTakes(s: State, t: Tid, d: nat)
    requires Eligible(s, t) && Has(s, d, t)
    ensures !OneOwner(Final(s, Newcomer(s, t)))
  {
    var s' := Final(s, Arrival(s, t));
    Arrives(s, t);
    FourChecks(s, s', t);
    FinalAppend(s, Arrival(s, t), seq(CHECKS, _ => Go(|s.cpus|)));
    var z := Final(s, Newcomer(s, t));
    assert z.cpus[d] == s.cpus[d];
    assert Has(z, |s.cpus|, t) && Has(z, d, t);
  }

  /** Whatever the CPUs do from then on and however the ring is edited, each record is on one CPU at most, if and
      only if no CPU has the record as it is used again. */
  lemma {:induction false} ReuseExactly(h: Heap, t: Tid)
    requires HeapOk(h) && t in h.freed
    ensures (forall run :: OneOwner(Final(Next(h, Reuse(t)).s, run))) <==> !Owned(h.s, t)
  {
    var s := Renew(h.s, t);
    assert Next(h, Reuse(t)).s == s;
    if Owned(h.s, t) {
      var d: nat :| Has(h.s, d, t);
      assert Has(s, d, t);
      NewcomerTakes(s, t, d);
      assert !OneOwner(Final(Next(h, Reuse(t)).s, Newcomer(s, t)));
    } else {
      RenewKeeps(h.s, t);
      forall run ensures OneOwner(Final(s, run)) { RunKeeps(s, run); }
    }
  }

  // ----- Whole runs -----

  const START := Heap(OFF, {})

  function Outcome(h: Heap, run: seq<Event>): Heap
    decreases |run|
  {
    if run == [] then h else Outcome(Next(h, run[0]), run[1..])
  }

  /** No CPU has a record that is used again. */
  ghost predicate Careful(h: Heap, run: seq<Event>)
    decreases |run|
  {
    run == [] || ((run[0].Reuse? ==> !Owned(h.s, run[0].t)) && Careful(Next(h, run[0]), run[1..]))
  }

  lemma {:induction false} CarefulKeeps(h: Heap, run: seq<Event>)
    requires HeapOk(h) && Careful(h, run)
    ensures HeapOk(Outcome(h, run))
    decreases |run|
  {
    if run != [] {
      if run[0].Plain? { PlainKeeps(h, run[0].a); }
      else if run[0].t in h.freed { RenewKeeps(h.s, run[0].t); }
      CarefulKeeps(Next(h, run[0]), run[1..]);
    }
  }

  /** Mutual exclusion with records used again, from power-on and on every careful run. */
  lemma {:induction false} CarefulRunsExclude(run: seq<Event>)
    requires Careful(START, run)
    ensures Exclusive(Outcome(START, run).s)
  {
    CarefulKeeps(START, run);
  }

  function Plainly(run: seq<Action>): (r: seq<Event>)
    ensures |r| == |run| && forall i :: 0 <= i < |run| ==> r[i] == Plain(run[i])
  {
    seq(|run|, i requires 0 <= i < |run| => Plain(run[i]))
  }

  lemma {:induction false} PlainlyIs(h: Heap, run: seq<Action>)
    ensures Outcome(h, Plainly(run)).s == Final(h.s, run)
    decreases |run|
  {
    if run != [] {
      assert Plainly(run)[1..] == Plainly(run[1..]);
      PlainlyIs(Next(h, Plain(run[0])), run[1..]);
    }
  }

  lemma {:induction false} OutcomeAppend(h: Heap, run: seq<Event>, more: seq<Event>)
    ensures Outcome(h, run + more) == Outcome(Outcome(h, run), more)
    decreases |run|
  {
    if run == [] { assert run + more == more; }
    else {
      assert (run + more)[0] == run[0] && (run + more)[1..] == run[1..] + more;
      OutcomeAppend(Next(h, run[0]), run[1..], more);
    }
  }

  /** After the race of two CPUs the exiting one frees its record, which is used again while the other has it. */
  lemma {:induction false} ReuseRace() returns (run: seq<Event>)
    ensures !OneOwner(Outcome(START, run).s)
  {
    var race, park := Plainly(RACE), [Plain(Go(0)), Reuse(2)];
    RaceEnds();
    PlainlyIs(START, RACE);
    var h := Outcome(START, race);
    OutcomeAppend(START, race, park);
    var s := Outcome(h, park).s;
    assert park[1..] == [Reuse(2)] && park[1..][1..] == [];
    assert Next(h, Plain(Go(0))).s.cpus[1] == Cpu(1, 1, Clear(2));
    assert Has(s, 1, 2) && Eligible(s, 2);
    NewcomerTakes(s, 2, 1);
    var more := Newcomer(s, 2);
    OutcomeAppend(START, race + park, Plainly(more));
    PlainlyIs(Outcome(h, park), more);
    run := race + park + Plainly(more);
  }
}
