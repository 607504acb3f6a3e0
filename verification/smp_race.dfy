/** A concrete interleaving of two CPUs in which a thread that has exited is run again. */
module SchedulerRace {
  import opened Words
  import opened SmpScheduler

  const POWER_ON := [Boot, Boot, Create, Create, Publish(2)]
  const LINK := [Relink(0, Some(1), Some(3)), Relink(1, Some(2), Some(0)),
                   Relink(2, Some(3), Some(1)), Relink(3, Some(0), Some(2))]
  const SCAN := [Tick(0), Go(0), Go(0), Go(0), Go(0), Go(0)]
  const SWITCH := [Go(0), Go(0), Go(0), Go(0), Go(0)]
  const REACH := [Tick(1), Go(1), Exit(0)]
  const UNLINK := [Go(0), Go(0), Go(0)]
  const LET_GO := [Go(0), Go(0), Go(0)]
  const TAKE := [Go(1), Go(1), Go(1)]
  const RACE := POWER_ON + (LINK + (SCAN + (SWITCH + (REACH + (UNLINK + (LET_GO + TAKE))))))

  /** Two CPUs, and threads 2 and 3 in the ring 0, 1, 2, 3. */
  function TwoCpus(t: Thread, u: Cpu, v: Cpu): State
  {
    State([IDLE.(next := Some(1), prev := Some(3)), IDLE.(next := Some(2), prev := Some(0)), t,
           NEW.(next := Some(0), prev := Some(2))], [u, v], {}, {})
  }

  /** The same after 2 has left the ring. */
  function Unlinked(t: Thread, u: Cpu, v: Cpu, gone: set<Tid>): State
  {
    State([IDLE.(next := Some(1), prev := Some(3)), IDLE.(next := Some(3), prev := Some(0)), t,
           NEW.(next := Some(0), prev := Some(1))], [u, v], gone, {})
  }

  const T2 := NEW.(next := Some(3), prev := Some(1), enqueued := true)
  const T2_ON := T2.(lock := true, running := true)
  const S0 := State([IDLE, IDLE, NEW.(enqueued := true), NEW], [Cpu(0, 0, Run), Cpu(1, 1, Run)], {}, {})
  const S1 := TwoCpus(T2, Cpu(0, 0, Run), Cpu(1, 1, Run))
  const S2 := TwoCpus(T2, Cpu(0, 0, TryLock(2)), Cpu(1, 1, Run))
  const S3 := TwoCpus(T2_ON, Cpu(2, 0, Run), Cpu(1, 1, Run))
  const R3 := TwoCpus(T2_ON, Cpu(2, 0, ExitCheck), Cpu(1, 1, CheckBlocked(2)))
  const S4 := Unlinked(T2_ON, Cpu(2, 0, ExitUnlock), Cpu(1, 1, CheckBlocked(2)), {})
  const S6 := Unlinked(T2.(enqueued := false, lock := true), Cpu(2, 0, Park), Cpu(1, 1, Clear(2)), {2})
  const S5 := Unlinked(T2.(enqueued := false), Cpu(2, 0, Park), Cpu(1, 1, CheckBlocked(2)), {2})

  lemma PowerOn()
    ensures Final(OFF, POWER_ON) == S0
  {
  }

  lemma Link()
    ensures Final(S0, LINK) == S1
  {
  }

  /** CPU 0 scans past the idle thread 1 and stands at 2. */
  lemma Scan()
    ensures Final(S1, SCAN) == S2
  {
  }

  /** CPU 0 takes and runs thread 2. */
  lemma Switch()
    ensures Final(S2, SWITCH) == S3
  {
  }

  /** CPU 1's scan reaches 2 just before CPU 0 unlinks it. */
  lemma Reach()
    ensures Final(S3, REACH) == R3
  {
  }

  lemma Unlink()
    ensures Final(R3, UNLINK) == S4
  {
  }

  lemma LetGo()
    ensures Final(S4, LET_GO) == S5
  {
  }

  /** CPU 1's pending checks find 2 neither blocked, running nor locked. */
  lemma Take()
    ensures Final(S5, TAKE) == S6
  {
  }

  lemma {:induction false} FinalAppend(s: State, run: seq<Action>, more: seq<Action>)
    ensures Final(s, run + more) == Final(Final(s, run), more)
    decreases |run|
  {
    if run == [] { assert run + more == more; }
    else {
      FinalAppend(Do(s, run[0]), run[1..], more);
      assert (run + more)[1..] == run[1..] + more;
    }
  }

  lemma {:induction false} RaceEnds()
    ensures Final(OFF, RACE) == S6
  {
    PowerOn(); Link(); Scan(); Switch(); Reach(); Unlink(); LetGo(); Take();
    FinalAppend(S4, LET_GO, TAKE);
    FinalAppend(R3, UNLINK, LET_GO + TAKE);
    FinalAppend(S3, REACH, UNLINK + (LET_GO + TAKE));
    FinalAppend(S2, SWITCH, REACH + (UNLINK + (LET_GO + TAKE)));
    FinalAppend(S1, SCAN, SWITCH + (REACH + (UNLINK + (LET_GO + TAKE))));
    FinalAppend(S0, LINK, SCAN + (SWITCH + (REACH + (UNLINK + (LET_GO + TAKE)))));
    FinalAppend(OFF, POWER_ON, LINK + (SCAN + (SWITCH + (REACH + (UNLINK + (LET_GO + TAKE))))));
  }

  /** From power-on, a scan that stands at a thread while that thread exits takes it: CPU 1 ends up with
      thread 2, which has exited. */
  lemma ExitRace()
    ensures Has(Final(OFF, RACE), 1, 2) && 2 in Final(OFF, RACE).exited && !NoneExited(Final(OFF, RACE))
  {
    RaceEnds();
    assert Has(S6, 1, 2);
  }
}
