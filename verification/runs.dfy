/** Runs of a step function, over any states and actions. */
module Runs {
  ghost function Play<S, T>(step: (S, T) -> S, s: S, ts: seq<T>): S
    decreases |ts|
  {
    if ts == [] then s else Play(step, step(s, ts[0]), ts[1..])
  }

  /** A count kept along a run. */
  ghost function Count<K, T>(next: (K, T) -> K, k: K, ts: seq<T>): K
    decreases |ts|
  {
    if ts == [] then k else Count(next, next(k, ts[0]), ts[1..])
  }

  lemma {:induction false} PlaySplit<S, T>(step: (S, T) -> S, s: S, a: seq<T>, b: seq<T>)
    ensures Play(step, s, a + b) == Play(step, Play(step, s, a), b)
    decreases |a|
  {
    if a == [] { assert a + b == b; }
    else {
      assert (a + b)[0] == a[0] && (a + b)[1..] == a[1..] + b;
      PlaySplit(step, step(s, a[0]), a[1..], b);
    }
  }

  lemma PlayOne<S, T>(step: (S, T) -> S, s: S, t: T)
    ensures Play(step, s, [t]) == step(s, t)
  {
    assert [t][1..] == [];
  }

  /** What every step keeps, every run keeps. */
  lemma {:induction false} PlayKeeps<S(!new), T(!new), K(!new)>(step: (S, T) -> S, inv: (S, K) -> bool,
                                                                next: (K, T) -> K, s: S, k: K, ts: seq<T>)
    requires inv(s, k) && forall x, i, t :: inv(x, i) ==> inv(step(x, t), next(i, t))
    ensures inv(Play(step, s, ts), Count(next, k, ts))
    decreases |ts|
  {
    if ts != [] { PlayKeeps(step, inv, next, step(s, ts[0]), next(k, ts[0]), ts[1..]); }
  }
}
