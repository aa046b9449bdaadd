/** Running a step function a number of times. */
module Runs {
  import opened Memory

  function Iterate<S>(f: S -> Try<S>, s: S, n: nat): Try<S>
    decreases n
  {
    if n == 0 then Ok(s)
    else
      match f(s)
      case Stop(why) => Stop(why)
      case Ok(t) => Iterate(f, t, n - 1)
  }

  /** `n` steps lead from `s` to `t`. */
  ghost predicate Goes<S>(f: S -> Try<S>, s: S, n: nat, t: S)
  {
    Iterate(f, s, n) == Ok(t)
  }

  lemma GoesOne<S>(f: S -> Try<S>, s: S, t: S)
    requires f(s) == Ok(t)
    ensures Goes(f, s, 1, t)
  {
    assert Iterate(f, t, 0) == Ok(t);
  }

  lemma {:induction false} GoesThrough<S>(f: S -> Try<S>, s: S, m: nat, t: S, n: nat, u: S)
    requires Goes(f, s, m, t) && Goes(f, t, n, u)
    ensures Goes(f, s, m + n, u)
    decreases m
  {
    if m == 0 {
    } else {
      GoesThrough(f, f(s).value, m - 1, t, n, u);
    }
  }

  lemma GoesStep<S>(f: S -> Try<S>, s: S, m: nat, t: S, u: S)
    requires Goes(f, s, m, t) && f(t) == Ok(u)
    ensures Goes(f, s, m + 1, u)
  {
    GoesOne(f, t, u);
    GoesThrough(f, s, m, t, 1, u);
  }
}
