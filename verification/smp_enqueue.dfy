/** The serialised scheduler with enqueues write by write: scans, switches and exits of other CPUs come between
    the writes of sched_enqueue_thread, and still no scan takes a thread that has exited. */
module FineEnqueues {
  import opened Words
  import opened SmpScheduler
  import opened SerialisedExits
  import opened RunQueue
  import opened Sequences

  /** The enqueue at hand: the thread, whether it is the idle thread of a CPU coming up, and how many of its
      writes are done. */
  datatype Pending = Nobody | At(t: Tid, boot: bool, k: nat)

  /** s is what memory holds; q is the system with the enqueue done from its second write on, which makes the
      thread reachable, and not begun before that. */
  datatype Fine = Fine(s: State, pend: Pending, q: Sys)

  /** Begin makes a thread and takes the queue's lock, Write is the next write, Other a step of a CPU. */
  datatype Event = Begin(boot: bool) | Write | Other(a: Action)

  const PUBLISHED := 2

  function Entry(boot: bool): Action { if boot then Boot else Create }

  /** The ends of the queue as an enqueue finds them. */
  function First(ring: seq<Tid>, t: Tid): Tid { if ring == [] then t else ring[0] }

  function Last(ring: seq<Tid>, t: Tid): Tid { if ring == [] then t else ring[|ring| - 1] }

  /** The k-th write for thread t. */
  function Written(s: State, ring: seq<Tid>, t: Tid, k: nat): State
  {
    if k == 0 then SetPrev(s, Some(t), Some(Last(ring, t)))
    else if k == 1 then SetNext(s, Some(Last(ring, t)), Some(t))
    else if k == 2 then SetNext(s, Some(t), Some(First(ring, t)))
    else if k == 3 then SetPrev(s, Some(First(ring, t)), Some(t))
    else if t < |s.threads| then SetThread(s, t, s.threads[t].(enqueued := true))
    else s
  }

  function Step(f: Fine, e: Event): Fine
  {
    match e
    case Begin(boot) =>
      if f.pend != Nobody then f else Fine(Do(f.s, Entry(boot)), At(|f.s.threads|, boot, 0), f.q)
    case Write =>
      (match f.pend
       case Nobody => f
       case At(t, boot, k) =>
         Fine(Written(f.s, f.q.ring, t, k), if k < 4 then At(t, boot, k + 1) else Nobody,
              if k + 1 == PUBLISHED then Act(f.q, Entry(boot)) else f.q))
    case Other(a) => Fine(Do(f.s, a), f.pend, Follow(f, a))
  }

  /** The other system makes the same step, and what a scan has read is what it read in memory. */
  function Follow(f: Fine, a: Action): Sys
  {
    var q := Act(f.q, a);
    if f.pend.At? && f.pend.k >= PUBLISHED then q.(s := q.s.(cpus := Do(f.s, a).cpus)) else q
  }

  // ----- What memory holds -----

  /** A thread record with those of its fields as they were that the enqueue has still to write. */
  function Masked(th: SmpScheduler.Thread, i: nat, ring: seq<Tid>, k: nat): SmpScheduler.Thread
    requires ring != []
  {
    var n := |ring|;
    var a := if i == ring[n - 1] then th.(enqueued := false) else th;
    var b := if i == ring[n - 1] && k == 2 && n > 1 then a.(next := None) else a;
    if i == ring[0] && k <= 3 then b.(prev := Some(ring[if n > 1 then n - 2 else 0])) else b
  }

  function MaskedAll(ths: seq<SmpScheduler.Thread>, ring: seq<Tid>, k: nat): (r: seq<SmpScheduler.Thread>)
    requires ring != []
    ensures |r| == |ths| && forall i: nat :: i < |ths| ==> r[i] == Masked(ths[i], i, ring, k)
  {
    seq(|ths|, i requires 0 <= i < |ths| => Masked(ths[i], i, ring, k))
  }

  /** The new record before anything leads to it. */
  function Private(q: Sys, t: Tid, boot: bool, k: nat): State
  {
    var s := Do(q.s, Entry(boot));
    if k == 0 then s else SetPrev(s, Some(t), Some(Last(q.ring, t)))
  }

  ghost predicate Shows(f: Fine)
  {
    match f.pend
    case Nobody => f.s == f.q.s
    case At(t, boot, k) =>
      if k < PUBLISHED then t == |f.q.s.threads| && f.s == Private(f.q, t, boot, k)
      else
        && k <= 4 && f.q.ring != [] && t == f.q.ring[|f.q.ring| - 1] && t < |f.q.s.threads|
        && f.s == f.q.s.(threads := MaskedAll(f.q.s.threads, f.q.ring, k))
  }

  /** The CPU that is enqueueing its own idle thread does nothing else. */
  predicate Busy(f: Fine, c: nat) { f.pend.At? && f.pend.boot && c + 1 == |f.s.cpus| }

  ghost predicate FineOk(f: Fine)
  {
    && SysOk(f.q) && Inv(f.s) && Shows(f) && (f.pend.At? ==> NoEdit(f.q.s))
    && (forall c: nat :: c < |f.s.cpus| && Busy(f, c) ==> f.s.cpus[c] == Cpu(f.pend.t, f.pend.t, Run))
  }

  /** As before, and no removal begins during an enqueue, nor an enqueue during a removal. */
  ghost predicate FineCalm(f: Fine, e: Event)
  {
    match e
    case Begin(_) => NoEdit(f.q.s)
    case Write => true
    case Other(a) =>
      && (a.Tick? || a.Exit? || a.Go?) && Calm(f.q, a) && !Busy(f, a.c)
      && (f.pend.At? && a.Go? && a.c < |f.s.cpus| ==> !f.s.cpus[a.c].pc.ExitCheck?)
  }

  // ----- Other CPUs, once the thread can be reached -----

  lemma MaskedSet(ths: seq<SmpScheduler.Thread>, ring: seq<Tid>, k: nat, i: nat, th: SmpScheduler.Thread)
    requires ring != [] && i < |ths|
    ensures MaskedAll(ths[i := th], ring, k) == MaskedAll(ths, ring, k)[i := Masked(th, i, ring, k)]
  {
  }

  /** A CPU has gone the same way, or finds the end of the list where the other goes on. */
  predicate Alike(u: Cpu, v: Cpu) { v == u || (u.pc.Visit? && v == u.(pc := Visit(None))) }

  /** The same step was made, by a CPU that saw some fields masked. */
  ghost predicate SameStep(x: State, y: State, ring: seq<Tid>, k: nat, c: nat)
    requires ring != []
  {
    && y.threads == MaskedAll(x.threads, ring, k) && y.exited == x.exited && y.stranded == x.stranded
    && c < |x.cpus| == |y.cpus| && Alike(x.cpus[c], y.cpus[c]) && y.cpus == x.cpus[c := y.cpus[c]]
  }

  lemma SkipMasked(s: State, y: State, ring: seq<Tid>, k: nat, c: nat, x: Tid)
    requires ring != [] && y == s.(threads := MaskedAll(s.threads, ring, k)) && c < |s.cpus| && x < |s.threads|
    ensures SameStep(Skip(s, c, x), Skip(y, c, x), ring, k, c)
  {
  }

  /** Both write one record, and c goes on. */
  lemma BothSet(s: State, y: State, ring: seq<Tid>, k: nat, c: nat, x: Tid, th: SmpScheduler.Thread, u: Cpu)
    requires ring != [] && y == s.(threads := MaskedAll(s.threads, ring, k)) && c < |s.cpus| && x < |s.threads|
    ensures SameStep(SetCpu(SetThread(s, x, th), c, u), SetCpu(SetThread(y, x, Masked(th, x, ring, k)), c, u),
                     ring, k, c)
  {
    MaskedSet(s.threads, ring, k, x, th);
  }

  lemma MaskCommutes(th: SmpScheduler.Thread, i: nat, ring: seq<Tid>, k: nat, v: bool)
    requires ring != []
    ensures Masked(th.(running := v), i, ring, k) == Masked(th, i, ring, k).(running := v)
    ensures Masked(th.(lock := v), i, ring, k) == Masked(th, i, ring, k).(lock := v)
  {
  }

  lemma ScanMasked(s: State, y: State, ring: seq<Tid>, k: nat, c: nat)
    requires Inv(s) && ring != [] && y == s.(threads := MaskedAll(s.threads, ring, k)) && c < |s.cpus|
    requires Scanning(s.cpus[c].pc)
    ensures SameStep(Micro(s, c), Micro(y, c), ring, k, c)
  {
    assert CpuOk(s, s.cpus[c]);
    if !s.cpus[c].pc.Visit? { CheckMasked(s, y, ring, k, c, s.cpus[c].pc.x); }
  }

  lemma CheckMasked(s: State, y: State, ring: seq<Tid>, k: nat, c: nat, x: Tid)
    requires ring != [] && y == s.(threads := MaskedAll(s.threads, ring, k)) && c < |s.cpus|
    requires s.cpus[c].pc in {CheckBlocked(x), CheckRunning(x), TryLock(x)} && x < |s.threads|
    requires s.cpus[c].current < |s.threads|
    ensures SameStep(Micro(s, c), Micro(y, c), ring, k, c)
  {
    var u, th := s.cpus[c], s.threads[x];
    assert y.threads[x].blocked == th.blocked && y.threads[x].running == th.running && y.threads[x].lock == th.lock;
    SkipMasked(s, y, ring, k, c, x);
    MaskCommutes(th, x, ring, k, true);
    BothSet(s, y, ring, k, c, x, th.(lock := true), u.(pc := Clear(x)));
  }

  lemma LockMasked(s: State, y: State, ring: seq<Tid>, k: nat, c: nat)
    requires Inv(s) && ring != [] && y == s.(threads := MaskedAll(s.threads, ring, k)) && c < |s.cpus|
    requires s.cpus[c].pc.Unlock? || s.cpus[c].pc.ExitUnlock?
    ensures SameStep(Micro(s, c), Micro(y, c), ring, k, c)
  {
    assert CpuOk(s, s.cpus[c]);
    var u := s.cpus[c];
    var th, pc := s.threads[u.current], if u.pc.Unlock? then Adopt(u.pc.to) else ExitDequeued;
    MaskCommutes(th, u.current, ring, k, false);
    BothSet(s, y, ring, k, c, u.current, th.(lock := false), u.(pc := pc));
  }

  lemma RunMasked(s: State, y: State, ring: seq<Tid>, k: nat, c: nat)
    requires Inv(s) && ring != [] && y == s.(threads := MaskedAll(s.threads, ring, k)) && c < |s.cpus|
    requires s.cpus[c].pc.Clear? || s.cpus[c].pc.Resume? || s.cpus[c].pc.ExitStop?
    ensures SameStep(Micro(s, c), Micro(y, c), ring, k, c)
  {
    assert CpuOk(s, s.cpus[c]);
    var u := s.cpus[c];
    var th := s.threads[u.current];
    var pc, v := if u.pc.Clear? then Unlock(u.pc.to) else if u.pc.Resume? then Run else Park, u.pc.Resume?;
    MaskCommutes(th, u.current, ring, k, v);
    assert Micro(s, c) == SetCpu(SetThread(s, u.current, th.(running := v)), c, u.(pc := pc));
    assert Micro(y, c) == SetCpu(SetThread(y, u.current, y.threads[u.current].(running := v)), c, u.(pc := pc));
    BothSet(s, y, ring, k, c, u.current, th.(running := v), u.(pc := pc));
  }

  lemma DequeueMasked(s: State, y: State, ring: seq<Tid>, k: nat, c: nat)
    requires Inv(s) && ring != [] && y == s.(threads := MaskedAll(s.threads, ring, k)) && c < |s.cpus|
    requires s.cpus[c].pc.ExitDequeued?
    ensures SameStep(Micro(s, c), Micro(y, c), ring, k, c)
  {
    assert CpuOk(s, s.cpus[c]);
    var u := s.cpus[c];
    BothSet(s, y, ring, k, c, u.current, s.threads[u.current].(enqueued := false), u.(pc := ExitStop));
  }

  lemma MicroMasked(s: State, y: State, ring: seq<Tid>, k: nat, c: nat)
    requires Inv(s) && ring != [] && y == s.(threads := MaskedAll(s.threads, ring, k)) && c < |s.cpus|
    requires !Editing(s.cpus[c].pc) && !s.cpus[c].pc.ExitCheck?
    ensures SameStep(Micro(s, c), Micro(y, c), ring, k, c)
  {
    var pc := s.cpus[c].pc;
    if Scanning(pc) { ScanMasked(s, y, ring, k, c); }
    else if pc.Unlock? || pc.ExitUnlock? { LockMasked(s, y, ring, k, c); }
    else if pc.Clear? || pc.Resume? || pc.ExitStop? { RunMasked(s, y, ring, k, c); }
    else if pc.ExitDequeued? { DequeueMasked(s, y, ring, k, c); }
    else { assert CpuOk(s, s.cpus[c]); }
  }

  lemma DoMasked(s: State, y: State, ring: seq<Tid>, k: nat, a: Action)
    requires Inv(s) && ring != [] && y == s.(threads := MaskedAll(s.threads, ring, k))
    requires (a.Tick? || a.Exit? || a.Go?) && a.c < |s.cpus| && !Editing(s.cpus[a.c].pc)
    requires a.Go? ==> !s.cpus[a.c].pc.ExitCheck?
    ensures SameStep(Do(s, a), Do(y, a), ring, k, a.c)
  {
    assert CpuOk(s, s.cpus[a.c]);
    if a.Go? { MicroMasked(s, y, ring, k, a.c); }
  }

  /** A scan that ends early leaves everything else as it is. */
  lemma GiveUpOk(q: Sys, c: nat, u: Cpu, q': Sys)
    requires SysOk(q) && c < |q.s.cpus| && Alike(q.s.cpus[c], u) && q' == q.(s := q.s.(cpus := q.s.cpus[c := u]))
    ensures SysOk(q')
  {
    if u == q.s.cpus[c] { assert q' == q; }
    else {
      assert CpuOk(q.s, q.s.cpus[c]) && CpuIn(q.ring, q.s.cpus[c]);
      QuietStep(q.s, q'.s, c, u);
      SameRingOk(q.s, q'.s, q.ring, c, u);
      forall d: nat, t: Tid | Has(q'.s, d, t) ensures t !in q'.s.exited { assert Has(q.s, d, t); }
    }
  }

  lemma NoEditStays(s: State, a: Action)
    requires Inv(s) && NoEdit(s) && (a.Tick? || a.Exit? || a.Go?)
    requires a.Go? && a.c < |s.cpus| ==> !s.cpus[a.c].pc.ExitCheck?
    ensures NoEdit(Do(s, a))
  {
    if a.c < |s.cpus| { assert CpuOk(s, s.cpus[a.c]); }
  }

  /** Nobody removes: the ring is as it was. */
  lemma RingStays(q: Sys, a: Action)
    requires NoEdit(q.s) && (a.Tick? || a.Exit? || a.Go?)
    ensures Act(q, a) == Sys(Do(q.s, a), q.ring)
  {
  }

  lemma FollowOk(q: Sys, y: State, k: nat, c: nat, q': Sys)
    requires SysOk(q) && NoEdit(q.s) && q.ring != [] && SameStep(q.s, y, q.ring, k, c)
    requires q' == q.(s := q.s.(cpus := y.cpus))
    ensures SysOk(q') && NoEdit(q'.s) && y == q'.s.(threads := MaskedAll(q'.s.threads, q'.ring, k))
  {
    GiveUpOk(q, c, y.cpus[c], q');
  }

  lemma {:induction false} PublishedOther(f: Fine, a: Action)
    requires FineOk(f) && f.pend.At? && f.pend.k >= PUBLISHED && FineCalm(f, Other(a)) && a.c < |f.s.cpus|
    ensures SysOk(Follow(f, a)) && NoEdit(Follow(f, a).s) && Shows(Step(f, Other(a)))
  {
    var q, k := f.q, f.pend.k;
    assert !Editing(q.s.cpus[a.c].pc);
    DoMasked(q.s, f.s, q.ring, k, a);
    CalmStep(q, a);
    RingStays(q, a);
    NoEditStays(q.s, a);
    LengthStays(q.s, a);
    PublishedFollow(f, a, Do(f.s, a), Act(q, a), Follow(f, a), Step(f, Other(a)));
  }

  lemma LengthStays(s: State, a: Action)
    requires Inv(s) && (a.Tick? || a.Exit? || a.Go?)
    ensures |Do(s, a).threads| == |s.threads|
  {
    if a.c < |s.cpus| { assert CpuOk(s, s.cpus[a.c]); }
  }

  lemma PublishedFollow(f: Fine, a: Action, y: State, q: Sys, q': Sys, f': Fine)
    requires f.pend.At? && PUBLISHED <= f.pend.k <= 4 && f' == Fine(y, f.pend, q')
    requires q' == q.(s := q.s.(cpus := y.cpus))
    requires q.ring == f.q.ring != [] && f.pend.t == q.ring[|q.ring| - 1] && f.pend.t < |q.s.threads|
    requires (a.Tick? || a.Exit? || a.Go?) && SysOk(q) && NoEdit(q.s) && SameStep(q.s, y, q.ring, f.pend.k, a.c)
    ensures SysOk(q') && NoEdit(q'.s) && Shows(f')
  {
    FollowOk(q, y, f.pend.k, a.c, q');
  }

  // ----- Other CPUs, before that -----

  function Extended(s: State, th: SmpScheduler.Thread, us: seq<Cpu>): State
  {
    State(s.threads + [th], s.cpus + us, s.exited, s.stranded)
  }

  lemma SetExtended(s: State, th: SmpScheduler.Thread, us: seq<Cpu>, c: nat, x: Tid, y: SmpScheduler.Thread, u: Cpu)
    requires c < |s.cpus| && x < |s.threads|
    ensures SetThread(Extended(s, th, us), x, y) == Extended(SetThread(s, x, y), th, us)
    ensures SetCpu(Extended(s, th, us), c, u) == Extended(SetCpu(s, c, u), th, us)
  {
    assert (s.threads + [th])[x := y] == s.threads[x := y] + [th];
    assert (s.cpus + us)[c := u] == s.cpus[c := u] + us;
  }

  lemma MicroExtended(s: State, th: SmpScheduler.Thread, us: seq<Cpu>, c: nat)
    requires Inv(s) && c < |s.cpus| && !Editing(s.cpus[c].pc)
    ensures Micro(Extended(s, th, us), c) == Extended(Micro(s, c), th, us)
  {
    var u, s' := s.cpus[c], Micro(s, c);
    assert CpuOk(s, u);
    SetExtended(s, th, us, c, u.current, s'.threads[u.current], s'.cpus[c]);
    var u2 := SetThread(s, u.current, s'.threads[u.current]);
    SetExtended(u2, th, us, c, u.current, s'.threads[u.current], s'.cpus[c]);
    if u.pc.TryLock? {
      SetExtended(s, th, us, c, u.pc.x, s'.threads[u.pc.x], s'.cpus[c]);
      SetExtended(SetThread(s, u.pc.x, s'.threads[u.pc.x]), th, us, c, u.pc.x, s'.threads[u.pc.x], s'.cpus[c]);
    }
  }

  lemma DoExtended(s: State, th: SmpScheduler.Thread, us: seq<Cpu>, a: Action)
    requires Inv(s) && (a.Tick? || a.Exit? || a.Go?) && a.c < |s.cpus| && !Editing(s.cpus[a.c].pc)
    ensures Do(Extended(s, th, us), a) == Extended(Do(s, a), th, us)
  {
    var u := s.cpus[a.c];
    assert CpuOk(s, u);
    if a.Go? { MicroExtended(s, th, us, a.c); }
    else { SetExtended(s, th, us, a.c, u.current, s.threads[u.current], Do(s, a).cpus[a.c]); }
  }

  function Record(ring: seq<Tid>, t: Tid, boot: bool, k: nat): SmpScheduler.Thread
  {
    var th := if boot then IDLE else NEW;
    if k == 0 then th else th.(prev := Some(Last(ring, t)))
  }

  function Newcomers(t: Tid, boot: bool): seq<Cpu> { if boot then [Cpu(t, t, Run)] else [] }

  lemma PrivateIs(q: Sys, t: Tid, boot: bool, k: nat)
    requires t == |q.s.threads|
    ensures Private(q, t, boot, k) == Extended(q.s, Record(q.ring, t, boot, k), Newcomers(t, boot))
  {
    assert q.s.cpus + [] == q.s.cpus;
    var th := if boot then IDLE else NEW;
    assert (q.s.threads + [th])[t := Record(q.ring, t, boot, k)] == q.s.threads + [Record(q.ring, t, boot, k)];
  }

  lemma {:induction false} PrivateOther(f: Fine, a: Action)
    requires FineOk(f) && f.pend.At? && f.pend.k < PUBLISHED && FineCalm(f, Other(a)) && a.c < |f.s.cpus|
    ensures SysOk(Follow(f, a)) && NoEdit(Follow(f, a).s) && Shows(Step(f, Other(a)))
  {
    var q, t, boot, k := f.q, f.pend.t, f.pend.boot, f.pend.k;
    PrivateIs(q, t, boot, k);
    var th, us := Record(q.ring, t, boot, k), Newcomers(t, boot);
    assert a.c < |q.s.cpus| && f.s.cpus[a.c] == q.s.cpus[a.c];
    DoExtended(q.s, th, us, a);
    CalmStep(q, a);
    RingStays(q, a);
    NoEditStays(q.s, a);
    LengthStays(q.s, a);
    PrivateIs(Act(q, a), t, boot, k);
  }

  lemma {:induction false} OtherKeeps(f: Fine, a: Action)
    requires FineOk(f) && FineCalm(f, Other(a))
    ensures FineOk(Step(f, Other(a)))
  {
    StepKeeps(f.s, a);
    if a.c >= |f.s.cpus| { assert Step(f, Other(a)) == f; }
    else {
      if f.pend == Nobody { CalmStep(f.q, a); }
      else if f.pend.k < PUBLISHED { PrivateOther(f, a); }
      else { PublishedOther(f, a); }
      OthersStay(f.s, a);
    }
  }

  lemma OthersStay(s: State, a: Action)
    requires Inv(s) && (a.Tick? || a.Exit? || a.Go?) && a.c < |s.cpus|
    ensures |Do(s, a).cpus| == |s.cpus| && forall d: nat :: d < |s.cpus| && d != a.c ==> Do(s, a).cpus[d] == s.cpus[d]
  {
    assert CpuOk(s, s.cpus[a.c]);
  }

  // ----- The writes -----

  lemma {:induction false} BeginKeeps(f: Fine, boot: bool)
    requires FineOk(f) && FineCalm(f, Begin(boot))
    ensures FineOk(Step(f, Begin(boot)))
  {
    StepKeeps(f.s, Entry(boot));
  }

  lemma QuietLinked(q: Sys)
    requires RingOk(q.s, q.ring) && NoEdit(q.s)
    ensures Linked(q.s, q.ring)
  {
    forall i: nat | i < |q.ring| ensures PrevAt(q.s, q.ring, i) {
      assert PrevAt(q.s, q.ring, i) || HalfRemoved(q.s, q.ring[i]);
    }
  }

  lemma LastIn(q: Sys, t: Tid)
    requires SysOk(q)
    ensures q.ring != [] ==> Last(q.ring, t) < |q.s.threads| && First(q.ring, t) < |q.s.threads|
  {
    if q.ring != [] { assert NextAt(q.s, q.ring, 0) && NextAt(q.s, q.ring, |q.ring| - 1); }
  }

  /** A write to links and flags of an existing record keeps what the locks say. */
  lemma WrittenInv(f: Fine, t: Tid, k: nat)
    requires Inv(f.s) && t < |f.s.threads| && Last(f.q.ring, t) < |f.s.threads| && First(f.q.ring, t) < |f.s.threads|
    ensures Inv(Written(f.s, f.q.ring, t, k)) && Written(f.s, f.q.ring, t, k).cpus == f.s.cpus
  {
    var s, first, last := f.s, First(f.q.ring, t), Last(f.q.ring, t);
    if k == 0 { WriteInv(s, t, s.threads[t].(prev := Some(last))); }
    else if k == 1 { WriteInv(s, last, s.threads[last].(next := Some(t))); }
    else if k == 2 { WriteInv(s, t, s.threads[t].(next := Some(first))); }
    else if k == 3 { WriteInv(s, first, s.threads[first].(prev := Some(t))); }
    else { WriteInv(s, t, s.threads[t].(enqueued := true)); }
  }

  /** The links written last, seen through the mask, are as they were before. */
  lemma PublishMasked(s1: State, ring: seq<Tid>, t: Tid, first: Tid, s2: State, i: nat)
    requires t < |s1.threads| && first < |s1.threads| && first == First(ring, t) && t !in ring && i < |s1.threads|
    requires s2 == SetPrev(SetNext(s1, Some(t), Some(first)), Some(first), Some(t))
    requires s1.threads[first].prev == Some(Last(ring, t)) && !s1.threads[t].enqueued
    requires s1.threads[t].next == if ring == [] then Some(t) else None
    ensures Masked(SetThread(s2, t, s2.threads[t].(enqueued := true)).threads[i], i, ring + [t], 2) == s1.threads[i]
  {
  }

  /** The second write makes the thread reachable. */
  lemma {:induction false} PublishShows(q: Sys, t: Tid, boot: bool, s1: State, q': Sys)
    requires SysOk(q) && NoEdit(q.s) && t == |q.s.threads| && q' == Act(q, Entry(boot))
    requires s1 == SetNext(Private(q, t, boot, 1), Some(Last(q.ring, t)), Some(t))
    ensures q'.ring == q.ring + [t] && s1 == q'.s.(threads := MaskedAll(q'.s.threads, q'.ring, 2))
  {
    var ring, first, last := q.ring, First(q.ring, t), Last(q.ring, t);
    QuietLinked(q);
    LastIn(q, t);
    PublishedBefore(q, t, boot, s1, first, last);
    var s2 := SetPrev(SetNext(s1, Some(t), Some(first)), Some(first), Some(t));
    assert q'.s == SetThread(s2, t, s2.threads[t].(enqueued := true));
    forall i: nat | i < |s1.threads| ensures Masked(q'.s.threads[i], i, ring + [t], 2) == s1.threads[i] {
      PublishMasked(s1, ring, t, first, s2, i);
    }
    assert MaskedAll(q'.s.threads, q'.ring, 2) == s1.threads;
  }

  lemma PublishedBefore(q: Sys, t: Tid, boot: bool, s1: State, first: Tid, last: Tid)
    requires SysOk(q) && Linked(q.s, q.ring) && t == |q.s.threads| && first == First(q.ring, t)
    requires last == Last(q.ring, t)
    requires s1 == SetNext(Private(q, t, boot, 1), Some(last), Some(t)) && (q.ring != [] ==> first < t && last < t)
    ensures t < |s1.threads| && first < |s1.threads| && t !in q.ring
    ensures s1.threads[first].prev == Some(last) && !s1.threads[t].enqueued
    ensures s1.threads[t].next == if q.ring == [] then Some(t) else None
  {
    var n := |q.ring|;
    if n > 0 { assert PrevAt(q.s, q.ring, n - 1) && Ahead(n - 1, 1, n) == 0; }
    forall x | x in q.ring ensures x < t { assert Enqueued(q.s, x); }
  }

  /** The others take the mask off. */
  lemma UnmaskNext(q: Sys, t: Tid, y: State, i: nat)
    requires Linked(q.s, q.ring) && q.ring != [] && t == q.ring[|q.ring| - 1] && t < |q.s.threads| && i < |q.s.threads|
    requires y == SetNext(q.s.(threads := MaskedAll(q.s.threads, q.ring, 2)), Some(t), Some(q.ring[0]))
    ensures y.threads[i] == Masked(q.s.threads[i], i, q.ring, 3)
  {
    assert NextAt(q.s, q.ring, |q.ring| - 1);
  }

  lemma UnmaskPrev(q: Sys, t: Tid, y: State, i: nat)
    requires Linked(q.s, q.ring) && q.ring != [] && t == q.ring[|q.ring| - 1] && q.ring[0] < |q.s.threads|
    requires i < |q.s.threads|
    requires y == SetPrev(q.s.(threads := MaskedAll(q.s.threads, q.ring, 3)), Some(q.ring[0]), Some(t))
    ensures y.threads[i] == Masked(q.s.threads[i], i, q.ring, 4)
  {
    assert PrevAt(q.s, q.ring, |q.ring| - 1);
  }

  lemma UnmaskFlag(q: Sys, t: Tid, y: State, i: nat)
    requires Linked(q.s, q.ring) && q.ring != [] && t == q.ring[|q.ring| - 1] && t < |q.s.threads| && i < |q.s.threads|
    requires
      var s := q.s.(threads := MaskedAll(q.s.threads, q.ring, 4));
      y == SetThread(s, t, s.threads[t].(enqueued := true))
    ensures y.threads[i] == q.s.threads[i]
  {
    assert Enqueued(q.s, t);
  }

  lemma {:induction false} WriteShows(f: Fine)
    requires FineOk(f) && f.pend.At? && f.pend.k >= PUBLISHED
    ensures Shows(Step(f, Write))
  {
    var q, t, k, y := f.q, f.pend.t, f.pend.k, Step(f, Write).s;
    QuietLinked(q);
    LastIn(q, t);
    forall i: nat | i < |q.s.threads|
      ensures y.threads[i] == if k < 4 then Masked(q.s.threads[i], i, q.ring, k + 1) else q.s.threads[i]
    {
      if k == 2 { UnmaskNext(q, t, y, i); } else if k == 3 { UnmaskPrev(q, t, y, i); } else { UnmaskFlag(q, t, y, i); }
    }
    assert y.threads == if k < 4 then MaskedAll(q.s.threads, q.ring, k + 1) else q.s.threads;
  }

  lemma {:induction false} PublishKeeps(f: Fine, q': Sys)
    requires FineOk(f) && f.pend.At? && f.pend.k == 1 && q' == Act(f.q, Entry(f.pend.boot))
    ensures SysOk(q') && NoEdit(q'.s) && Shows(Step(f, Write))
  {
    var q, t, boot := f.q, f.pend.t, f.pend.boot;
    CalmStep(q, Entry(boot));
    EnqueueStays(q, Entry(boot));
    PublishShows(q, t, boot, Step(f, Write).s, q');
  }

  lemma {:induction false} WriteKeeps(f: Fine)
    requires FineOk(f)
    ensures FineOk(Step(f, Write))
  {
    if f.pend.At? {
      var q, t, k := f.q, f.pend.t, f.pend.k;
      LastIn(q, t);
      assert t < |f.s.threads| && |q.s.threads| <= |f.s.threads|;
      WrittenInv(f, t, k);
      if k == 1 { PublishKeeps(f, Act(q, Entry(f.pend.boot))); } else if k > 1 { WriteShows(f); }
    }
  }

  lemma {:induction false} FineStep(f: Fine, e: Event)
    requires FineOk(f) && FineCalm(f, e)
    ensures FineOk(Step(f, e))
  {
    match e
    case Begin(boot) => BeginKeeps(f, boot);
    case Write => WriteKeeps(f);
    case Other(a) => OtherKeeps(f, a);
  }

  // ----- Whole runs -----

  const POWER_OFF := Fine(OFF, Nobody, Sys(OFF, []))

  function Outcome(f: Fine, run: seq<Event>): Fine
    decreases |run|
  {
    if run == [] then f else Outcome(Step(f, run[0]), run[1..])
  }

  ghost predicate FineCalmRun(f: Fine, run: seq<Event>)
    decreases |run|
  {
    run == [] || (FineCalm(f, run[0]) && FineCalmRun(Step(f, run[0]), run[1..]))
  }

  lemma {:induction false} FineRunOk(f: Fine, run: seq<Event>)
    requires FineOk(f) && FineCalmRun(f, run)
    ensures FineOk(Outcome(f, run))
    decreases |run|
  {
    if run != [] {
      FineStep(f, run[0]);
      FineRunOk(Step(f, run[0]), run[1..]);
    }
  }

  /** Memory's CPUs are the other system's, and the one that is coming up. */
  lemma FineCpus(f: Fine, c: nat)
    requires FineOk(f) && c < |f.s.cpus|
    ensures f.s.exited == f.q.s.exited
    ensures || (c < |f.q.s.cpus| && f.s.cpus[c] == f.q.s.cpus[c])
            || f.s.cpus[c] == Cpu(|f.q.s.threads|, |f.q.s.threads|, Run)
  {
    if f.pend.At? && f.pend.k < PUBLISHED { PrivateIs(f.q, f.pend.t, f.pend.boot, f.pend.k); }
  }

  lemma FineLive(f: Fine, a: Action)
    requires FineOk(f)
    ensures NoneExited(f.s) && !TakesExited(f.s, a)
  {
    forall c: nat, t: Tid | Has(f.s, c, t) ensures t !in f.s.exited {
      FineCpus(f, c);
      if c < |f.q.s.cpus| && f.s.cpus[c] == f.q.s.cpus[c] { assert Has(f.q.s, c, t); }
    }
    if a.Go? && a.c < |f.s.cpus| && f.s.cpus[a.c].pc.TryLock? {
      FineCpus(f, a.c);
      assert CpuIn(f.q.ring, f.q.s.cpus[a.c]) && Enqueued(f.q.s, f.s.cpus[a.c].pc.x);
    }
  }

  /** From power-on, with scans, switches and the rest of exits between the writes of enqueues, on every run whose
      removals are serialised: no CPU has a thread that has exited and no scan takes one; and whenever
      nobody is enqueueing, next and prev are one cycle over exactly the threads that have not left. */
  lemma {:induction false} FineRunsExclude(run: seq<Event>, f: Fine, a: Action, t: Tid)
    requires FineCalmRun(POWER_OFF, run) && f == Outcome(POWER_OFF, run)
    ensures Exclusive(f.s) && NoneExited(f.s) && !TakesExited(f.s, a)
    ensures f.pend == Nobody ==> NextRing(f.s, f.q.ring) && PrevRing(f.s, f.q.ring)
    ensures f.pend == Nobody ==> (t in f.q.ring <==> t < |f.s.threads| && t !in f.s.exited && !Leaving(f.s, t))
  {
    FineRunOk(POWER_OFF, run);
    FineLive(f, a);
    RingExact(f.q, t);
  }
}
