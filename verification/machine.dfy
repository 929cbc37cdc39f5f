/**
 * A deterministic step function `S -> (O, S)` run for a number of steps:
 * every script here is one, at two grains (a polling tick, and one pass
 * through the phase logic).  Facts about splitting and indexing a run are
 * proved once, for any step function.
 */
module Machine {

  /** The state after `n` steps from `s`. */
  function Final<S, O>(step: S -> (O, S), s: S, n: nat): S
    decreases n
  {
    if n == 0 then s else Final(step, step(s).1, n - 1)
  }

  /** The outputs of the first `n` steps from `s`, in order. */
  function Trace<S, O>(step: S -> (O, S), s: S, n: nat): (t: seq<O>)
    ensures |t| == n
    decreases n
  {
    if n == 0 then [] else [step(s).0] + Trace(step, step(s).1, n - 1)
  }

  /** The summed `cost` of the states the first `n` steps start from. */
  function Total<S, O>(step: S -> (O, S), cost: S -> nat, s: S, n: nat): nat
    decreases n
  {
    if n == 0 then 0 else cost(s) + Total(step, cost, step(s).1, n - 1)
  }

  /** Running `a` steps and then `b` more ends where running `a + b` steps does. */
  lemma {:induction false} FinalAdd<S, O>(step: S -> (O, S), s: S, a: nat, b: nat)
    ensures Final(step, s, a + b) == Final(step, Final(step, s, a), b)
    decreases a
  {
    if a > 0 {
      FinalAdd(step, step(s).1, a - 1, b);
    }
  }

  /** The outputs of `a + b` steps are those of the first `a` followed by those of the next `b`. */
  lemma {:induction false} TraceAdd<S, O>(step: S -> (O, S), s: S, a: nat, b: nat)
    ensures Trace(step, s, a + b) == Trace(step, s, a) + Trace(step, Final(step, s, a), b)
    decreases a
  {
    if a > 0 {
      TraceAdd(step, step(s).1, a - 1, b);
    }
  }

  /** The cost of `a + b` steps is that of the first `a` plus that of the next `b`. */
  lemma {:induction false} TotalAdd<S, O>(step: S -> (O, S), cost: S -> nat, s: S, a: nat, b: nat)
    ensures Total(step, cost, s, a + b) == Total(step, cost, s, a) + Total(step, cost, Final(step, s, a), b)
    decreases a
  {
    if a > 0 {
      TotalAdd(step, cost, step(s).1, a - 1, b);
    }
  }

  /** Output `i` of a run is what the step produces from the state reached after `i` steps. */
  lemma {:induction false} TraceAt<S, O>(step: S -> (O, S), s: S, n: nat, i: nat)
    requires i < n
    ensures Trace(step, s, n)[i] == step(Final(step, s, i)).0
    decreases i
  {
    if i > 0 {
      TraceAt(step, step(s).1, n - 1, i - 1);
    }
  }
}
