/** No thread is lost: every live thread is on a CPU or free to be taken, and its running flag tells which. */
module ThreadAccounting {
  import opened Words
  import opened SmpScheduler

  /** u's current thread is the one it executes, with its running flag set. */
  predicate Active(u: Cpu, t: Tid)
  {
    u.current == t && !u.pc.Unlock? && !u.pc.Adopt? && !u.pc.Resume?
    && !u.pc.ExitDequeued? && !u.pc.ExitStop? && !u.pc.Park?
  }

  predicate On(s: State, c: nat, t: Tid) { c < |s.cpus| && Active(s.cpus[c], t) }

  /** Threads that are neither idle nor gone. */
  predicate Live(s: State, t: Tid) { t < |s.threads| && !s.threads[t].blocked && t !in s.exited && t !in s.stranded }

  /** running is set exactly while some CPU executes the thread, the switch itself aside. */
  ghost predicate FlagsTell(s: State)
  {
    forall t: Tid :: Live(s, t) ==> (s.threads[t].running <==> exists c: nat :: On(s, c, t))
  }

  /** The step changes who is active only as given. */
  lemma FlagsFrom(s: State, s': State, t: Tid)
    requires FlagsTell(s) && Live(s', t) && Live(s, t) && s'.threads[t].running == s.threads[t].running
    requires forall c: nat :: On(s', c, t) <==> On(s, c, t)
    ensures s'.threads[t].running <==> exists c: nat :: On(s', c, t)
  {
  }

  lemma ActiveOwns(s: State, c: nat, t: Tid)
    requires On(s, c, t)
    ensures Has(s, c, t)
  {
  }

  /** A CPU that is past the unlock of its exiting thread has recorded the exit. */
  ghost predicate LeavingExited(s: State)
  {
    forall c: nat :: c < |s.cpus| && (s.cpus[c].pc.ExitDequeued? || s.cpus[c].pc.ExitStop?) ==>
      s.cpus[c].current in s.exited
  }

  ghost predicate Accounted(s: State) { Inv(s) && FlagsTell(s) && LeavingExited(s) }

  lemma ClearFlags(s: State, c: nat)
    requires Accounted(s) && c < |s.cpus| && s.cpus[c].pc.Clear?
    ensures FlagsTell(Micro(s, c))
  {
    var s', cur := Micro(s, c), s.cpus[c].current;
    assert CpuOk(s, s.cpus[c]) && Has(s, c, cur);
    forall t: Tid | Live(s', t) ensures s'.threads[t].running <==> exists d: nat :: On(s', d, t) {
      forall d: nat ensures On(s', d, t) <==> On(s, d, t) && t != cur { if On(s, d, t) { ActiveOwns(s, d, t); } }
      if t != cur { FlagsFrom(s, s', t); }
    }
  }

  lemma ResumeFlags(s: State, c: nat)
    requires Accounted(s) && c < |s.cpus| && s.cpus[c].pc.Resume?
    ensures FlagsTell(Micro(s, c))
  {
    var s', cur := Micro(s, c), s.cpus[c].current;
    assert CpuOk(s, s.cpus[c]);
    forall t: Tid | Live(s', t) ensures s'.threads[t].running <==> exists d: nat :: On(s', d, t) {
      forall d: nat ensures On(s', d, t) <==> On(s, d, t) || (d == c && t == cur) { }
      if t != cur { FlagsFrom(s, s', t); } else { assert On(s', c, t); }
    }
  }

  /** The steps that neither set nor clear a live thread's running flag. */
  lemma SameRunning(s: State, c: nat, t: Tid)
    requires Accounted(s) && c < |s.cpus| && !s.cpus[c].pc.Clear? && !s.cpus[c].pc.Resume? && Live(Micro(s, c), t)
    ensures Live(s, t) && Micro(s, c).threads[t].running == s.threads[t].running
  {
    assert CpuOk(s, s.cpus[c]);
    match s.cpus[c].pc
    case Run => case Visit(_) => case CheckBlocked(_) => case CheckRunning(_) => case TryLock(_) =>
    case Clear(_) => case Unlock(_) => case Adopt(_) => case Resume => case ExitCheck => case ExitNext =>
    case ExitPrev => case ExitUnlock => case ExitDequeued => case ExitStop => case Park =>
  }

  lemma SameActive(s: State, c: nat, t: Tid, d: nat)
    requires Accounted(s) && c < |s.cpus| && !s.cpus[c].pc.Clear? && !s.cpus[c].pc.Resume? && Live(Micro(s, c), t)
    ensures On(Micro(s, c), d, t) <==> On(s, d, t)
  {
    assert CpuOk(s, s.cpus[c]);
    match s.cpus[c].pc
    case Run => case Visit(_) => case CheckBlocked(_) => case CheckRunning(_) => case TryLock(_) =>
    case Clear(_) => case Unlock(_) => case Adopt(_) => case Resume => case ExitCheck => case ExitNext =>
    case ExitPrev => case ExitUnlock => case ExitDequeued => case ExitStop => case Park =>
  }

  lemma OtherFlags(s: State, c: nat)
    requires Accounted(s) && c < |s.cpus| && !s.cpus[c].pc.Clear? && !s.cpus[c].pc.Resume?
    ensures FlagsTell(Micro(s, c))
  {
    var s' := Micro(s, c);
    forall t: Tid | Live(s', t) ensures s'.threads[t].running <==> exists d: nat :: On(s', d, t) {
      SameRunning(s, c, t);
      forall d: nat ensures On(s', d, t) <==> On(s, d, t) { SameActive(s, c, t, d); }
      FlagsFrom(s, s', t);
    }
  }

  lemma MicroLeaving(s: State, c: nat)
    requires Accounted(s) && c < |s.cpus|
    ensures LeavingExited(Micro(s, c))
  {
    assert CpuOk(s, s.cpus[c]);
  }

  lemma EventFlags(s: State, a: Action)
    requires Accounted(s) && !a.Go?
    ensures FlagsTell(Do(s, a)) && LeavingExited(Do(s, a))
  {
    var s' := Do(s, a);
    forall t: Tid | Live(s', t) ensures s'.threads[t].running <==> exists d: nat :: On(s', d, t) {
      if t < |s.threads| {
        forall d: nat ensures On(s', d, t) <==> On(s, d, t) { }
        FlagsFrom(s, s', t);
      } else {
        forall d: nat ensures !On(s', d, t) { if d < |s.cpus| { assert CpuOk(s, s.cpus[d]); } }
      }
    }
  }

  lemma AccountedStep(s: State, a: Action)
    requires Accounted(s)
    ensures Accounted(Do(s, a))
  {
    StepKeeps(s, a);
    if !a.Go? { EventFlags(s, a); }
    else if a.c < |s.cpus| {
      MicroLeaving(s, a.c);
      if s.cpus[a.c].pc.Clear? { ClearFlags(s, a.c); }
      else if s.cpus[a.c].pc.Resume? { ResumeFlags(s, a.c); }
      else { OtherFlags(s, a.c); }
    }
  }

  lemma {:induction false} AccountedRun(s: State, run: seq<Action>)
    requires Accounted(s)
    ensures Accounted(Final(s, run))
    decreases |run|
  {
    if run != [] {
      AccountedStep(s, run[0]);
      AccountedRun(Do(s, run[0]), run[1..]);
    }
  }

  /** From power-on, on every run: a thread that has not exited is on exactly one CPU, or is being switched
      to, or is eligible; its running flag is set exactly while a CPU executes it. */
  lemma {:induction false} NoThreadLost(run: seq<Action>, s: State, t: Tid)
    requires s == Final(OFF, run) && Live(s, t)
    ensures !Owned(s, t) <==> Eligible(s, t)
    ensures s.threads[t].running <==> exists c: nat :: On(s, c, t)
  {
    AccountedRun(OFF, run);
    forall c: nat | On(s, c, t) ensures Has(s, c, t) { ActiveOwns(s, c, t); }
  }
}
