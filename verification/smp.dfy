/** The SMP scheduler as a transition system: any number of CPUs, each taking the micro-steps of the
    timer handler and of thread exit, interleaved with each other and with arbitrary ring edits. */
module SmpScheduler {
  import opened Words

  type Tid = nat

  /** One thread record; lock is its try-lock, 1 when held. */
  datatype Thread = Thread(lock: bool, running: bool, blocked: bool, enqueued: bool,
                           next: Option<Tid>, prev: Option<Tid>)

  /** Where a CPU is. Visit is the loop head of get_next_thread, the three checks follow it; Clear,
      Unlock, Adopt and Resume are the switch; the Exit steps are dequeue_thread, Park ends
      dequeue_and_die. */
  datatype Pc =
    | Run | Visit(at: Option<Tid>) | CheckBlocked(x: Tid) | CheckRunning(x: Tid) | TryLock(x: Tid)
    | Clear(to: Tid) | Unlock(to: Tid) | Adopt(to: Tid) | Resume
    | ExitCheck | ExitNext | ExitPrev | ExitUnlock | ExitDequeued | ExitStop | Park

  datatype Cpu = Cpu(current: Tid, idle: Tid, pc: Pc)

  /** exited remembers the threads whose exit has given up their lock, stranded those whose exit skipped
      that because their enqueued flag was not set. */
  datatype State = State(threads: seq<Thread>, cpus: seq<Cpu>, exited: set<Tid>, stranded: set<Tid>)

  /** Boot brings up a CPU on its own idle thread; Create makes a thread; Relink stands for any write
      to ring links; Publish sets enqueued; Tick is the timer interrupt; Exit calls dequeue_and_die;
      Go is the CPU's next micro-step. */
  datatype Action = Boot | Create | Relink(t: Tid, next: Option<Tid>, prev: Option<Tid>) | Publish(t: Tid)
                  | Tick(c: nat) | Exit(c: nat) | Go(c: nat)

  // ----- Steps -----

  function SetThread(s: State, t: Tid, th: Thread): State
  {
    if t < |s.threads| then s.(threads := s.threads[t := th]) else s
  }

  function SetCpu(s: State, c: nat, u: Cpu): State
    requires c < |s.cpus|
  {
    s.(cpus := s.cpus[c := u])
  }

  function SetPc(s: State, c: nat, pc: Pc): State
    requires c < |s.cpus|
  {
    SetCpu(s, c, s.cpus[c].(pc := pc))
  }

  function SetPrev(s: State, t: Option<Tid>, p: Option<Tid>): State
  {
    if t.Some? && t.value < |s.threads| then SetThread(s, t.value, s.threads[t.value].(prev := p)) else s
  }

  function SetNext(s: State, t: Option<Tid>, n: Option<Tid>): State
  {
    if t.Some? && t.value < |s.threads| then SetThread(s, t.value, s.threads[t.value].(next := n)) else s
  }

  /** A link is null or names a thread. */
  predicate In(s: State, l: Option<Tid>) { l.Some? ==> l.value < |s.threads| }

  const IDLE := Thread(false, false, true, false, None, None)
  const NEW := Thread(false, false, false, false, None, None)

  function Do(s: State, a: Action): State
  {
    match a
    case Boot => s.(threads := s.threads + [IDLE], cpus := s.cpus + [Cpu(|s.threads|, |s.threads|, Run)])
    case Create => s.(threads := s.threads + [NEW])
    case Relink(t, n, p) =>
      if t < |s.threads| && In(s, n) && In(s, p) then SetThread(s, t, s.threads[t].(next := n, prev := p)) else s
    case Publish(t) => if t < |s.threads| then SetThread(s, t, s.threads[t].(enqueued := true)) else s
    case Tick(c) =>
      if c < |s.cpus| && s.cpus[c].pc.Run? && s.cpus[c].current < |s.threads|
      then SetPc(s, c, Visit(s.threads[s.cpus[c].current].next)) else s
    case Exit(c) =>
      if c < |s.cpus| && s.cpus[c].pc.Run? && s.cpus[c].current != s.cpus[c].idle then SetPc(s, c, ExitCheck) else s
    case Go(c) => if c < |s.cpus| then Micro(s, c) else s
  }

  /** The scan moves on past x. */
  function Skip(s: State, c: nat, x: Tid): State
    requires c < |s.cpus|
  {
    if x < |s.threads| then SetPc(s, c, Visit(s.threads[x].next)) else s
  }

  /** One micro-step of CPU c, by its program counter. */
  function Micro(s: State, c: nat): State
    requires c < |s.cpus|
  {
    var u := s.cpus[c];
    if u.current >= |s.threads| then s
    else
      var t := s.threads[u.current];
      match u.pc
      case Run => s
      case Visit(at) =>
        if at == None || at.value == u.current then SetPc(s, c, Run) else SetPc(s, c, CheckBlocked(at.value))
      case CheckBlocked(x) =>
        if x < |s.threads| && !s.threads[x].blocked then SetPc(s, c, CheckRunning(x)) else Skip(s, c, x)
      case CheckRunning(x) =>
        if x < |s.threads| && !s.threads[x].running then SetPc(s, c, TryLock(x)) else Skip(s, c, x)
      case TryLock(x) =>
        if x < |s.threads| && !s.threads[x].lock
        then SetPc(SetThread(s, x, s.threads[x].(lock := true)), c, Clear(x)) else Skip(s, c, x)
      case Clear(to) => SetPc(SetThread(s, u.current, t.(running := false)), c, Unlock(to))
      case Unlock(to) => SetPc(SetThread(s, u.current, t.(lock := false)), c, Adopt(to))
      case Adopt(to) => SetCpu(s, c, Cpu(to, u.idle, Resume))
      case Resume => SetPc(SetThread(s, u.current, t.(running := true)), c, Run)
      case ExitCheck =>
        if t.enqueued then SetPc(s, c, ExitNext)
        else SetPc(s, c, Park).(stranded := s.stranded + {u.current})
      case ExitNext => SetPc(SetPrev(s, t.next, t.prev), c, ExitPrev)
      case ExitPrev => SetPc(SetNext(s, t.prev, t.next), c, ExitUnlock)
      case ExitUnlock =>
        SetPc(SetThread(s, u.current, t.(lock := false)), c, ExitDequeued).(exited := s.exited + {u.current})
      case ExitDequeued => SetPc(SetThread(s, u.current, t.(enqueued := false)), c, ExitStop)
      case ExitStop => SetPc(SetThread(s, u.current, t.(running := false)), c, Park)
      case Park => SetCpu(s, c, Cpu(u.idle, u.idle, Run))
  }

  // ----- Ownership -----

  /** CPU u executes thread t: its own current thread, until it has let go of it. */
  predicate Executes(u: Cpu, t: Tid)
  {
    u.current == t && !u.pc.Adopt? && !u.pc.ExitDequeued? && !u.pc.ExitStop? && !u.pc.Park?
  }

  /** CPU u has taken t and is switching to it. */
  predicate Taking(u: Cpu, t: Tid)
  {
    (u.pc.Clear? || u.pc.Unlock? || u.pc.Adopt?) && u.pc.to == t
  }

  predicate Owns(u: Cpu, t: Tid) { Executes(u, t) || Taking(u, t) }

  /** CPU number c owns t. */
  predicate Has(s: State, c: nat, t: Tid) { c < |s.cpus| && Owns(s.cpus[c], t) }

  /** What the scan accepts. */
  predicate Eligible(s: State, t: Tid)
  {
    t < |s.threads| && !s.threads[t].blocked && !s.threads[t].running && !s.threads[t].lock
  }

  ghost predicate Owned(s: State, t: Tid) { exists c: nat :: Has(s, c, t) }

  /** A thread is on one CPU at most. */
  ghost predicate OneOwner(s: State)
  {
    forall c: nat, d: nat, t: Tid :: Has(s, c, t) && Has(s, d, t) ==> c == d
  }

  /** A blocked (idle) thread is only ever on its own CPU, and is never the target of a switch. */
  ghost predicate IdleStays(s: State)
  {
    forall c: nat, t: Tid :: Has(s, c, t) && t < |s.threads| && s.threads[t].blocked ==>
      t == s.cpus[c].idle && !Taking(s.cpus[c], t)
  }

  /** A lock is held exactly while some CPU has the thread, or for ever after an exit that skipped the
      unlock; the lock of an idle thread is never held. */
  ghost predicate LockTells(s: State)
  {
    forall t: Tid :: t < |s.threads| ==>
      (s.threads[t].lock <==> !s.threads[t].blocked && (Owned(s, t) || t in s.stranded))
  }

  /** No CPU has a stranded thread. */
  ghost predicate StrandedStay(s: State)
  {
    forall t: Tid :: t in s.stranded ==> t < |s.threads| && !s.threads[t].blocked && !Owned(s, t)
  }

  /** What the scheduler is for: mutual exclusion. */
  ghost predicate Exclusive(s: State)
  {
    OneOwner(s) && IdleStays(s) && LockTells(s) && StrandedStay(s)
  }

  // ----- The invariant -----

  predicate CpuOk(s: State, u: Cpu)
  {
    && u.current < |s.threads| && u.idle < |s.threads| && s.threads[u.idle].blocked
    && (s.threads[u.current].blocked ==> u.current == u.idle)
    && match u.pc
       case Visit(at) => In(s, at)
       case CheckBlocked(x) => x < |s.threads| && x != u.current
       case CheckRunning(x) => x < |s.threads| && x != u.current && !s.threads[x].blocked
       case TryLock(x) => x < |s.threads| && x != u.current && !s.threads[x].blocked
       case Clear(x) => x < |s.threads| && x != u.current && !s.threads[x].blocked
       case Unlock(x) => x < |s.threads| && x != u.current && !s.threads[x].blocked
       case Adopt(x) => x < |s.threads| && !s.threads[x].blocked
       case Run => true
       case Resume => true
       case _ => u.current != u.idle
  }

  ghost predicate CpusOk(s: State) { forall c: nat :: c < |s.cpus| ==> CpuOk(s, s.cpus[c]) }

  predicate LinksOk(s: State)
  {
    forall t: Tid :: t < |s.threads| ==> In(s, s.threads[t].next) && In(s, s.threads[t].prev)
  }

  ghost predicate IdleApart(s: State)
  {
    forall c: nat, d: nat :: c < |s.cpus| && d < |s.cpus| && s.cpus[c].idle == s.cpus[d].idle ==> c == d
  }

  ghost predicate ExitedExist(s: State)
  {
    forall t :: t in s.exited ==> t < |s.threads| && !s.threads[t].blocked
  }

  ghost predicate Inv(s: State)
  {
    Exclusive(s) && CpusOk(s) && LinksOk(s) && IdleApart(s) && ExitedExist(s)
  }

  lemma OwnedExists(s: State, c: nat, t: Tid)
    requires CpusOk(s) && Has(s, c, t)
    ensures t < |s.threads|
  {
    assert CpuOk(s, s.cpus[c]);
  }

  // ----- Each step keeps the invariant -----

  /** Same threads as far as ownership goes: locks and blocked flags are untouched. */
  ghost predicate SameLocks(s: State, s': State)
  {
    && |s'.threads| == |s.threads| && s'.exited == s.exited && s'.stranded == s.stranded && LinksOk(s')
    && forall t: Tid :: t < |s.threads| ==>
         s'.threads[t].lock == s.threads[t].lock && s'.threads[t].blocked == s.threads[t].blocked
  }

  lemma CpuOkSame(s: State, s': State, u: Cpu)
    requires CpuOk(s, u) && SameLocks(s, s')
    ensures CpuOk(s', u)
  {
  }

  ghost predicate SameOwners(s: State, s': State)
  {
    && |s'.cpus| == |s.cpus| && (forall c: nat, t: Tid :: Has(s', c, t) <==> Has(s, c, t))
    && (forall c: nat :: c < |s.cpus| ==> s'.cpus[c].idle == s.cpus[c].idle)
    && (forall c: nat, t: Tid :: c < |s.cpus| && Taking(s'.cpus[c], t) ==> Taking(s.cpus[c], t))
  }

  lemma SameExclusive(s: State, s': State)
    requires Exclusive(s) && SameLocks(s, s') && SameOwners(s, s')
    ensures Exclusive(s')
  {
    forall t: Tid ensures Owned(s', t) <==> Owned(s, t) {
      if Owned(s, t) { var d: nat :| Has(s, d, t); assert Has(s', d, t); }
    }
  }

  lemma SameCpus(s: State, s': State, c: nat, u: Cpu)
    requires CpusOk(s) && c < |s.cpus| && SameLocks(s, s') && s'.cpus == s.cpus[c := u] && CpuOk(s', u)
    ensures CpusOk(s')
  {
    forall d: nat | d < |s'.cpus| ensures CpuOk(s', s'.cpus[d]) {
      if d != c { CpuOkSame(s, s', s.cpus[d]); }
    }
  }

  /** A step of CPU c that changes neither what it owns nor any lock. */
  lemma QuietStep(s: State, s': State, c: nat, u: Cpu)
    requires Inv(s) && c < |s.cpus| && SameLocks(s, s') && s'.cpus == s.cpus[c := u] && CpuOk(s', u)
    requires u.idle == s.cpus[c].idle && forall t: Tid :: Owns(u, t) <==> Owns(s.cpus[c], t)
    requires forall t: Tid :: Taking(u, t) ==> Taking(s.cpus[c], t)
    ensures Inv(s')
  {
    SameExclusive(s, s');
    SameCpus(s, s', c, u);
  }

  /** Threads differ from before at most in t's lock. */
  ghost predicate OneLock(s: State, s': State, t: Tid, v: bool)
  {
    && |s'.threads| == |s.threads| && t < |s.threads| && LinksOk(s') && s'.threads[t].lock == v
    && (forall k: Tid :: k < |s.threads| ==> s'.threads[k].blocked == s.threads[k].blocked)
    && (forall k: Tid :: k < |s.threads| && k != t ==> s'.threads[k].lock == s.threads[k].lock)
  }

  lemma OneLockCpus(s: State, s': State, c: nat, u: Cpu, t: Tid, v: bool)
    requires CpusOk(s) && c < |s.cpus| && OneLock(s, s', t, v) && s'.cpus == s.cpus[c := u] && CpuOk(s', u)
    ensures CpusOk(s')
  {
    forall d: nat | d < |s'.cpus| ensures CpuOk(s', s'.cpus[d]) {
      if d != c { assert CpuOk(s, s.cpus[d]); }
    }
  }

  /** Taking x: exactly (c, x) joins the ownership relation, and x's lock is set. */
  lemma TakeExclusive(s: State, s': State, c: nat, x: Tid)
    requires Exclusive(s) && c < |s.cpus| && |s'.cpus| == |s.cpus| && OneLock(s, s', x, true)
    requires s'.stranded == s.stranded && !s.threads[x].blocked && !s.threads[x].lock
    requires forall d: nat, t: Tid :: Has(s', d, t) <==> Has(s, d, t) || (d == c && t == x)
    requires forall d: nat :: d < |s.cpus| ==> s'.cpus[d].idle == s.cpus[d].idle
    requires forall d: nat, t: Tid :: d < |s.cpus| && Taking(s'.cpus[d], t) ==> Taking(s.cpus[d], t) || t == x
    ensures Exclusive(s')
  {
    assert !Owned(s, x);
    assert Has(s', c, x);
    forall t: Tid | t != x ensures Owned(s', t) <==> Owned(s, t) {
      if Owned(s, t) { var d: nat :| Has(s, d, t); assert Has(s', d, t); }
    }
  }

  /** Giving up t: exactly (c, t) leaves the ownership relation, and t's lock is cleared or t stranded. */
  lemma DropExclusive(s: State, s': State, c: nat, t: Tid, v: bool)
    requires Exclusive(s) && Has(s, c, t) && |s'.cpus| == |s.cpus| && OneLock(s, s', t, v)
    requires s'.stranded == if v then s.stranded + {t} else s.stranded
    requires v ==> !s.threads[t].blocked
    requires forall d: nat, k: Tid :: Has(s', d, k) <==> Has(s, d, k) && !(d == c && k == t)
    requires forall d: nat :: d < |s.cpus| ==> s'.cpus[d].idle == s.cpus[d].idle
    requires forall d: nat, k: Tid :: d < |s.cpus| && Taking(s'.cpus[d], k) ==> Taking(s.cpus[d], k)
    ensures Exclusive(s')
  {
    assert Owned(s, t);
    forall k: Tid | k != t ensures Owned(s', k) <==> Owned(s, k) {
      if Owned(s, k) { var d: nat :| Has(s, d, k); assert Has(s', d, k); }
    }
  }

  lemma TakeKeeps(s: State, c: nat, x: Tid)
    requires Inv(s) && c < |s.cpus| && s.cpus[c].pc == TryLock(x) && x < |s.threads| && !s.threads[x].lock
    ensures Inv(Micro(s, c)) && Has(Micro(s, c), c, x)
  {
    var s' := Micro(s, c);
    var u := s.cpus[c].(pc := Clear(x));
    assert CpuOk(s, s.cpus[c]);
    OneLockCpus(s, s', c, u, x, true);
    TakeExclusive(s, s', c, x);
  }

  lemma UnlockKeeps(s: State, c: nat, to: Tid)
    requires Inv(s) && c < |s.cpus| && s.cpus[c].pc == Unlock(to)
    ensures Inv(Micro(s, c))
  {
    var s', t := Micro(s, c), s.cpus[c].current;
    assert CpuOk(s, s.cpus[c]) && Has(s, c, t);
    OneLockCpus(s, s', c, s.cpus[c].(pc := Adopt(to)), t, false);
    DropExclusive(s, s', c, t, false);
  }

  lemma RetireKeeps(s: State, c: nat)
    requires Inv(s) && c < |s.cpus| && s.cpus[c].pc.ExitUnlock?
    ensures Inv(Micro(s, c))
  {
    var s', t := Micro(s, c), s.cpus[c].current;
    assert CpuOk(s, s.cpus[c]) && Has(s, c, t);
    OneLockCpus(s, s', c, s.cpus[c].(pc := ExitDequeued), t, false);
    DropExclusive(s, s', c, t, false);
  }

  /** Exit of a thread whose enqueued flag is not set yet: it keeps its lock for ever. */
  lemma AbandonKeeps(s: State, c: nat)
    requires Inv(s) && c < |s.cpus| && s.cpus[c].pc.ExitCheck? && s.cpus[c].current < |s.threads|
    requires !s.threads[s.cpus[c].current].enqueued
    ensures Inv(Micro(s, c))
  {
    var s', t := Micro(s, c), s.cpus[c].current;
    assert CpuOk(s, s.cpus[c]) && Has(s, c, t) && Owned(s, t);
    OneLockCpus(s, s', c, s.cpus[c].(pc := Park), t, true);
    DropExclusive(s, s', c, t, true);
  }

  lemma ParkKeeps(s: State, c: nat)
    requires Inv(s) && c < |s.cpus| && s.cpus[c].pc.Park?
    ensures Inv(Micro(s, c))
  {
    var s', u := Micro(s, c), s.cpus[c];
    assert CpuOk(s, u);
    SameCpus(s, s', c, Cpu(u.idle, u.idle, Run));
    assert forall d: nat, t: Tid :: Has(s', d, t) <==> Has(s, d, t) || (d == c && t == u.idle);
    forall t: Tid | t != u.idle ensures Owned(s', t) <==> Owned(s, t) {
      if Owned(s, t) { var d: nat :| Has(s, d, t); assert Has(s', d, t); }
    }
    forall d: nat | d != c ensures !Has(s, d, u.idle) {
    }
  }

  lemma BootKeeps(s: State)
    requires Inv(s)
    ensures Inv(Do(s, Boot))
  {
    var s', n := Do(s, Boot), |s.threads|;
    forall d: nat, t: Tid | Has(s, d, t) ensures t < n { OwnedExists(s, d, t); }
    assert forall d: nat, t: Tid :: Has(s', d, t) <==> Has(s, d, t) || (d == |s.cpus| && t == n);
    forall t: Tid | t != n ensures Owned(s', t) <==> Owned(s, t) {
      if Owned(s, t) { var d: nat :| Has(s, d, t); assert Has(s', d, t); }
    }
    forall d: nat | d < |s'.cpus| ensures CpuOk(s', s'.cpus[d]) {
      if d < |s.cpus| { assert CpuOk(s, s.cpus[d]); }
    }
    forall d: nat | d < |s.cpus| ensures s.cpus[d].idle < n {
      assert CpuOk(s, s.cpus[d]);
    }
  }

  lemma CreateKeeps(s: State)
    requires Inv(s)
    ensures Inv(Do(s, Create))
  {
    var s', n := Do(s, Create), |s.threads|;
    forall d: nat, t: Tid | Has(s, d, t) ensures t < n { OwnedExists(s, d, t); }
    assert forall d: nat, t: Tid :: Has(s', d, t) <==> Has(s, d, t);
    forall t: Tid ensures Owned(s', t) <==> Owned(s, t) {
      if Owned(s, t) { var d: nat :| Has(s, d, t); assert Has(s', d, t); }
    }
    forall d: nat | d < |s'.cpus| ensures CpuOk(s', s'.cpus[d]) {
      assert CpuOk(s, s.cpus[d]);
    }
  }

  lemma VisitKeeps(s: State, c: nat)
    requires Inv(s) && c < |s.cpus| && s.cpus[c].pc.Visit?
    ensures Inv(Micro(s, c))
  {
    assert CpuOk(s, s.cpus[c]);
    QuietStep(s, Micro(s, c), c, Micro(s, c).cpus[c]);
  }

  lemma ScanKeeps(s: State, c: nat)
    requires Inv(s) && c < |s.cpus|
    requires s.cpus[c].pc.CheckBlocked? || s.cpus[c].pc.CheckRunning?
             || (s.cpus[c].pc.TryLock? && s.cpus[c].pc.x < |s.threads| && s.threads[s.cpus[c].pc.x].lock)
    ensures Inv(Micro(s, c))
  {
    assert CpuOk(s, s.cpus[c]);
    QuietStep(s, Micro(s, c), c, Micro(s, c).cpus[c]);
  }

  lemma SwitchKeeps(s: State, c: nat)
    requires Inv(s) && c < |s.cpus| && (s.cpus[c].pc.Clear? || s.cpus[c].pc.Adopt? || s.cpus[c].pc.Resume?)
    ensures Inv(Micro(s, c))
  {
    assert CpuOk(s, s.cpus[c]);
    QuietStep(s, Micro(s, c), c, Micro(s, c).cpus[c]);
  }

  lemma UnlinkKeeps(s: State, c: nat)
    requires Inv(s) && c < |s.cpus| && (s.cpus[c].pc.ExitNext? || s.cpus[c].pc.ExitPrev?)
    ensures Inv(Micro(s, c))
  {
    assert CpuOk(s, s.cpus[c]);
    QuietStep(s, Micro(s, c), c, Micro(s, c).cpus[c]);
  }

  lemma StopKeeps(s: State, c: nat)
    requires Inv(s) && c < |s.cpus| && s.cpus[c].current < |s.threads|
    requires s.cpus[c].pc.ExitDequeued? || s.cpus[c].pc.ExitStop?
             || (s.cpus[c].pc.ExitCheck? && s.threads[s.cpus[c].current].enqueued)
    ensures Inv(Micro(s, c))
  {
    assert CpuOk(s, s.cpus[c]);
    QuietStep(s, Micro(s, c), c, Micro(s, c).cpus[c]);
  }

  lemma EditKeeps(s: State, a: Action)
    requires Inv(s) && (a.Relink? || a.Publish?)
    ensures Inv(Do(s, a))
  {
    var s' := Do(s, a);
    SameExclusive(s, s');
    forall d: nat | d < |s'.cpus| ensures CpuOk(s', s'.cpus[d]) { CpuOkSame(s, s', s.cpus[d]); }
  }

  lemma EnterKeeps(s: State, a: Action)
    requires Inv(s) && (a.Tick? || a.Exit?)
    ensures Inv(Do(s, a))
  {
    if a.c < |s.cpus| {
      assert CpuOk(s, s.cpus[a.c]);
      QuietStep(s, Do(s, a), a.c, Do(s, a).cpus[a.c]);
    }
  }

  lemma MicroKeeps(s: State, c: nat)
    requires Inv(s) && c < |s.cpus|
    ensures Inv(Micro(s, c))
  {
    assert CpuOk(s, s.cpus[c]);
    match s.cpus[c].pc
    case Run =>
    case Visit(_) => VisitKeeps(s, c);
    case CheckBlocked(_) => ScanKeeps(s, c);
    case CheckRunning(_) => ScanKeeps(s, c);
    case TryLock(x) => if s.threads[x].lock { ScanKeeps(s, c); } else { TakeKeeps(s, c, x); }
    case Clear(_) => SwitchKeeps(s, c);
    case Unlock(to) => UnlockKeeps(s, c, to);
    case Adopt(_) => SwitchKeeps(s, c);
    case Resume => SwitchKeeps(s, c);
    case ExitCheck => if s.threads[s.cpus[c].current].enqueued { StopKeeps(s, c); } else { AbandonKeeps(s, c); }
    case ExitNext => UnlinkKeeps(s, c);
    case ExitPrev => UnlinkKeeps(s, c);
    case ExitUnlock => RetireKeeps(s, c);
    case ExitDequeued => StopKeeps(s, c);
    case ExitStop => StopKeeps(s, c);
    case Park => ParkKeeps(s, c);
  }

  /** Every step of every CPU, and every edit of the ring, keeps the invariant. */
  lemma StepKeeps(s: State, a: Action)
    requires Inv(s)
    ensures Inv(Do(s, a))
  {
    match a
    case Boot => BootKeeps(s);
    case Create => CreateKeeps(s);
    case Relink(_, _, _) => EditKeeps(s, a);
    case Publish(_) => EditKeeps(s, a);
    case Tick(_) => EnterKeeps(s, a);
    case Exit(_) => EnterKeeps(s, a);
    case Go(c) => if c < |s.cpus| { MicroKeeps(s, c); }
  }

  // ----- Whole runs -----

  const OFF := State([], [], {}, {})

  function Final(s: State, run: seq<Action>): State
    decreases |run|
  {
    if run == [] then s else Final(Do(s, run[0]), run[1..])
  }

  lemma {:induction false} RunKeeps(s: State, run: seq<Action>)
    requires Inv(s)
    ensures Inv(Final(s, run))
    decreases |run|
  {
    if run != [] {
      StepKeeps(s, run[0]);
      RunKeeps(Do(s, run[0]), run[1..]);
    }
  }

  /** Mutual exclusion, from power-on and in every interleaving of any number of CPUs with any edits of the
      ring: each thread is on one CPU at most, idle threads are never taken, and a lock is held exactly
      while a CPU has the thread, or for ever after an exit that skipped the unlock. */
  lemma {:induction false} SchedulerExcludes(run: seq<Action>)
    ensures Exclusive(Final(OFF, run))
  {
    RunKeeps(OFF, run);
  }

  // ----- Threads that have exited -----

  /** No CPU has a thread that has exited. */
  ghost predicate NoneExited(s: State)
  {
    forall c: nat, t: Tid :: Has(s, c, t) ==> t !in s.exited
  }

  /** The step that takes a thread which has already exited. */
  predicate TakesExited(s: State, a: Action)
  {
    a.Go? && a.c < |s.cpus| && s.cpus[a.c].pc.TryLock? && s.cpus[a.c].current < |s.threads| &&
    var x := s.cpus[a.c].pc.x; x < |s.threads| && !s.threads[x].lock && x in s.exited
  }

  /** Who can own a thread after a step that did not before. */
  lemma NewOwner(s: State, a: Action, d: nat, t: Tid)
    requires Inv(s) && a.Go? && Has(Do(s, a), d, t)
    ensures Has(s, d, t) || (a == Go(d) && d < |s.cpus| && s.cpus[d].pc == TryLock(t))
            || (d < |s.cpus| && s.cpus[d].pc.Park? && t == s.cpus[d].idle)
  {
    if a.c < |s.cpus| {
      assert CpuOk(s, s.cpus[a.c]);
      match s.cpus[a.c].pc
      case Run => case Visit(_) => case CheckBlocked(_) => case CheckRunning(_) => case TryLock(_) =>
      case Clear(_) => case Unlock(_) => case Adopt(_) => case Resume => case ExitCheck => case ExitNext =>
      case ExitPrev => case ExitUnlock => case ExitDequeued => case ExitStop => case Park =>
    }
  }

  lemma StillExited(s: State, a: Action, d: nat, t: Tid)
    requires Inv(s) && Has(Do(s, a), d, t) && t in Do(s, a).exited
    ensures t in s.exited && (Has(s, d, t) || TakesExited(s, a))
  {
    if a.Go? && a.c < |s.cpus| {
      NewOwner(s, a, d, t);
      if d < |s.cpus| { assert CpuOk(s, s.cpus[d]); }
      if s.cpus[a.c].pc.ExitUnlock? { assert Has(s, a.c, s.cpus[a.c].current); }
    }
  }

  /** Taking a thread that has exited is the only step that puts one on a CPU. */
  lemma NoneExitedExactly(s: State, a: Action)
    requires Inv(s) && NoneExited(s)
    ensures NoneExited(Do(s, a)) <==> !TakesExited(s, a)
  {
    if TakesExited(s, a) {
      TakeKeeps(s, a.c, s.cpus[a.c].pc.x);
    } else {
      forall d: nat, t: Tid | Has(Do(s, a), d, t) ensures t !in Do(s, a).exited {
        if t in Do(s, a).exited { StillExited(s, a, d, t); }
      }
    }
  }

  predicate Exiting(pc: Pc)
  {
    || pc.ExitCheck? || pc.ExitNext? || pc.ExitPrev? || pc.ExitUnlock?
    || pc.ExitDequeued? || pc.ExitStop? || pc.Park?
  }
}
