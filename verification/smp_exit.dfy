/** When an exiting thread can be run again: exactly when, as it gives up its lock, some other CPU's scan
    stands at it. */
module ExitSafety {
  import opened Words
  import opened SmpScheduler

  /** u's scan is looking at t. */
  predicate Standing(u: Cpu, t: Tid)
  {
    || u.pc == Visit(Some(t)) || u.pc == CheckBlocked(t) || u.pc == CheckRunning(t) || u.pc == TryLock(t)
  }

  /** No ring link leads to t, as after both writes of its removal. */
  ghost predicate Unreferenced(s: State, t: Tid)
  {
    forall u: Tid :: u < |s.threads| ==> s.threads[u].next != Some(t)
  }

  /** Nobody links t in again. */
  predicate LeavesOut(run: seq<Action>, t: Tid)
  {
    forall i :: 0 <= i < |run| ==> !(run[i].Relink? && run[i].next == Some(t))
  }

  predicate TakesAgain(s: State, a: Action, t: Tid) { TakesExited(s, a) && s.cpus[a.c].pc.x == t }

  /** Somewhere along the run t, having exited, is taken. */
  predicate TakenAgain(s: State, run: seq<Action>, t: Tid)
    decreases |run|
  {
    run != [] && (TakesAgain(s, run[0], t) || TakenAgain(Do(s, run[0]), run[1..], t))
  }

  // ----- Safe when nobody stands at it -----

  /** u has no way to t: it neither looks at it nor switches to it, and if t is its current thread then
      only because it is leaving it. */
  predicate AwayFrom(u: Cpu, t: Tid)
  {
    && !Standing(u, t) && !Taking(u, t)
    && (u.current == t ==> u.pc.Adopt? || u.pc.ExitUnlock? || u.pc.ExitDequeued? || u.pc.ExitStop? || u.pc.Park?)
  }

  ghost predicate Away(s: State, t: Tid)
  {
    && t < |s.threads| && !s.threads[t].blocked && Unreferenced(s, t)
    && forall d: nat :: d < |s.cpus| ==> AwayFrom(s.cpus[d], t)
  }

  lemma AwayMicro(s: State, c: nat, t: Tid)
    requires Inv(s) && Away(s, t) && c < |s.cpus|
    ensures AwayFrom(Micro(s, c).cpus[c], t)
  {
    assert CpuOk(s, s.cpus[c]) && AwayFrom(s.cpus[c], t);
    match s.cpus[c].pc
    case Run => case Visit(_) => case CheckBlocked(_) => case CheckRunning(_) => case TryLock(_) =>
    case Clear(_) => case Unlock(_) => case Adopt(_) => case Resume => case ExitCheck => case ExitNext =>
    case ExitPrev => case ExitUnlock => case ExitDequeued => case ExitStop => case Park =>
  }

  lemma MicroLinks(s: State, c: nat, t: Tid)
    requires Inv(s) && Away(s, t) && c < |s.cpus|
    ensures t < |Micro(s, c).threads| && !Micro(s, c).threads[t].blocked && Unreferenced(Micro(s, c), t)
  {
    assert CpuOk(s, s.cpus[c]) && AwayFrom(s.cpus[c], t);
    match s.cpus[c].pc
    case Run => case Visit(_) => case CheckBlocked(_) => case CheckRunning(_) => case TryLock(_) =>
    case Clear(_) => case Unlock(_) => case Adopt(_) => case Resume => case ExitCheck => case ExitNext =>
    case ExitPrev => case ExitUnlock => case ExitDequeued => case ExitStop => case Park =>
  }

  lemma OthersStay(s: State, c: nat)
    requires c < |s.cpus|
    ensures |Micro(s, c).cpus| == |s.cpus|
    ensures forall d: nat :: d < |s.cpus| && d != c ==> Micro(s, c).cpus[d] == s.cpus[d]
  {
    match s.cpus[c].pc
    case Run => case Visit(_) => case CheckBlocked(_) => case CheckRunning(_) => case TryLock(_) =>
    case Clear(_) => case Unlock(_) => case Adopt(_) => case Resume => case ExitCheck => case ExitNext =>
    case ExitPrev => case ExitUnlock => case ExitDequeued => case ExitStop => case Park =>
  }

  lemma AwayStep(s: State, a: Action, t: Tid)
    requires Inv(s) && Away(s, t) && !(a.Relink? && a.next == Some(t))
    ensures Away(Do(s, a), t)
  {
    if a.Go? && a.c < |s.cpus| {
      OthersStay(s, a.c);
      MicroLinks(s, a.c, t);
      AwayMicro(s, a.c, t);
    } else if !a.Go? {
      AwayEdit(s, a, t);
    }
  }

  /** The steps that are not a CPU's own. */
  lemma AwayEdit(s: State, a: Action, t: Tid)
    requires Inv(s) && Away(s, t) && !a.Go? && !(a.Relink? && a.next == Some(t))
    ensures Away(Do(s, a), t)
  {
    match a
    case Boot =>
    case Create =>
    case Relink(_, _, _) =>
    case Publish(_) =>
    case Tick(c) => if c < |s.cpus| { assert CpuOk(s, s.cpus[c]) && AwayFrom(s.cpus[c], t); }
    case Exit(_) =>
  }

  lemma {:induction false} AwayForEver(s: State, run: seq<Action>, t: Tid)
    requires Inv(s) && Away(s, t) && LeavesOut(run, t)
    ensures !TakenAgain(s, run, t)
    decreases |run|
  {
    if run != [] {
      if run[0].Go? && run[0].c < |s.cpus| { assert AwayFrom(s.cpus[run[0].c], t); }
      StepKeeps(s, run[0]);
      AwayStep(s, run[0], t);
      AwayForEver(Do(s, run[0]), run[1..], t);
    }
  }

  // ----- Unsafe when somebody does -----

  /** What d's checks will find: t exited and to be had. */
  predicate Tempting(s: State, d: nat, t: Tid)
  {
    && d < |s.cpus| && s.cpus[d].current < |s.threads| && s.cpus[d].current != t && t in s.exited
    && t < |s.threads| && !s.threads[t].blocked && !s.threads[t].running && !s.threads[t].lock
  }

  /** How many steps d is from taking t. */
  function ToGo(u: Cpu, t: Tid): nat
  {
    if u.pc == Visit(Some(t)) then 3
    else if u.pc == CheckBlocked(t) then 2
    else if u.pc == CheckRunning(t) then 1
    else 0
  }

  lemma {:induction false} ChecksTake(s: State, d: nat, t: Tid) returns (run: seq<Action>)
    requires Tempting(s, d, t) && Standing(s.cpus[d], t)
    ensures TakenAgain(s, run, t) && LeavesOut(run, t)
    decreases ToGo(s.cpus[d], t)
  {
    if s.cpus[d].pc == TryLock(t) {
      run := [Go(d)];
    } else {
      var rest := ChecksTake(Do(s, Go(d)), d, t);
      run := [Go(d)] + rest;
      assert run[1..] == rest;
    }
  }

  /** The three steps after which c has let go of t for good. */
  lemma LetGo(s: State, c: nat, d: nat, t: Tid, s3: State)
    requires Inv(s) && c < |s.cpus| && s.cpus[c].pc.ExitUnlock? && s.cpus[c].current == t
    requires d < |s.cpus| && Standing(s.cpus[d], t) && s3 == Micro(Micro(Micro(s, c), c), c)
    ensures Tempting(s3, d, t) && s3.cpus[d] == s.cpus[d]
  {
    assert CpuOk(s, s.cpus[c]) && CpuOk(s, s.cpus[d]) && Has(s, c, t) && Has(s, d, s.cpus[d].current);
  }

  lemma {:induction false} StandingTakes(s: State, c: nat, d: nat, t: Tid) returns (run: seq<Action>)
    requires Inv(s) && c < |s.cpus| && s.cpus[c].pc.ExitUnlock? && s.cpus[c].current == t
    requires d < |s.cpus| && Standing(s.cpus[d], t)
    ensures TakenAgain(s, run, t) && LeavesOut(run, t)
  {
    var s1 := Do(s, Go(c));
    assert CpuOk(s, s.cpus[c]);
    var s2 := Do(s1, Go(c));
    var s3 := Do(s2, Go(c));
    LetGo(s, c, d, t, s3);
    var rest := ChecksTake(s3, d, t);
    var r2, r1 := [Go(c)] + rest, [Go(c)] + ([Go(c)] + rest);
    run := [Go(c)] + r1;
    assert r2[1..] == rest && r1[1..] == r2 && run[1..] == r1;
    assert TakenAgain(s2, r2, t) && TakenAgain(s1, r1, t);
  }

  /** The exact condition. As c gives up the lock of an exiting thread that no ring link leads to any more,
      some run that does not link it in again takes it if and only if another CPU's scan stands at it. */
  lemma {:induction false} ExitSafeExactly(s: State, c: nat, t: Tid)
    requires Inv(s) && c < |s.cpus| && s.cpus[c].pc.ExitUnlock? && s.cpus[c].current == t && Unreferenced(s, t)
    ensures (exists run :: LeavesOut(run, t) && TakenAgain(s, run, t)) <==>
            (exists d: nat :: d < |s.cpus| && Standing(s.cpus[d], t))
  {
    assert CpuOk(s, s.cpus[c]) && Has(s, c, t);
    if d: nat :| d < |s.cpus| && Standing(s.cpus[d], t) {
      var run := StandingTakes(s, c, d, t);
    } else {
      forall d: nat | d < |s.cpus| ensures AwayFrom(s.cpus[d], t) { AwayUnlessStanding(s, c, d, t); }
      forall run | LeavesOut(run, t) ensures !TakenAgain(s, run, t) { AwayForEver(s, run, t); }
    }
  }

  lemma AwayUnlessStanding(s: State, c: nat, d: nat, t: Tid)
    requires Inv(s) && c < |s.cpus| && s.cpus[c].pc.ExitUnlock? && s.cpus[c].current == t
    requires d < |s.cpus| && !Standing(s.cpus[d], t)
    ensures AwayFrom(s.cpus[d], t)
  {
    assert Has(s, c, t);
    if d != c { assert !Has(s, d, t); }
  }
}
