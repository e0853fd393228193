/** Runs of a state machine and how to reason about all of them at once. */
module Runs {

  function Run<S, E>(next: (S, E) -> S, s: S, es: seq<E>): S {
    if es == [] then s else next(Run(next, s, es[..|es| - 1]), es[|es| - 1])
  }

  /** The state in which event i of a run happens. */
  function At<S, E>(next: (S, E) -> S, s: S, es: seq<E>, i: nat): S
    requires i <= |es|
  {
    Run(next, s, es[..i])
  }

  lemma AtNext<S, E>(next: (S, E) -> S, s: S, es: seq<E>, i: nat)
    requires i < |es|
    ensures At(next, s, es, i + 1) == next(At(next, s, es, i), es[i])
  {
    assert es[..i + 1][..i] == es[..i];
  }

  lemma AtEnds<S, E>(next: (S, E) -> S, s: S, es: seq<E>)
    ensures At(next, s, es, 0) == s
    ensures At(next, s, es, |es|) == Run(next, s, es)
  {
    assert es[..|es|] == es;
  }

  lemma RunExtend<S, E>(next: (S, E) -> S, s: S, es: seq<E>, e: E)
    ensures Run(next, s, es + [e]) == next(Run(next, s, es), e)
  {
    assert (es + [e])[..|es|] == es;
  }

  /** Every event of the run is one the guard lets through. */
  ghost predicate Guarded<S, E>(next: (S, E) -> S, guard: (S, E) -> bool, s: S, es: seq<E>) {
    forall i :: 0 <= i < |es| ==> guard(At(next, s, es, i), es[i])
  }

  /** What holds at first and is kept by every event the guard lets through holds throughout. */
  lemma {:induction false} Invariant<S(!new), E(!new)>(
      next: (S, E) -> S, guard: (S, E) -> bool, inv: S -> bool, s: S, es: seq<E>, i: nat)
    requires inv(s) && i <= |es|
    requires Guarded(next, guard, s, es)
    requires forall t, e {:trigger next(t, e)} :: inv(t) && guard(t, e) ==> inv(next(t, e))
    ensures inv(At(next, s, es, i))
  {
    if i > 0 {
      Invariant(next, guard, inv, s, es, i - 1);
      AtNext(next, s, es, i - 1);
      assert guard(At(next, s, es, i - 1), es[i - 1]);
    }
  }

  /** The same for an invariant that also speaks of how far the run has come. */
  lemma {:induction false} IndexedInvariant<S(!new), E(!new)>(
      next: (S, E) -> S, inv: (int, S) -> bool, s: S, es: seq<E>, i: nat)
    requires inv(0, s) && i <= |es|
    requires forall k, t {:trigger next(t, es[k])} :: 0 <= k < |es| && inv(k, t) ==> inv(k + 1, next(t, es[k]))
    ensures inv(i, At(next, s, es, i))
  {
    if i > 0 {
      IndexedInvariant(next, inv, s, es, i - 1);
      AtNext(next, s, es, i - 1);
    }
  }

  /** What no event decreases is never smaller later on. */
  lemma {:induction false} Monotone<S(!new), E(!new)>(
      next: (S, E) -> S, guard: (S, E) -> bool, rank: S -> int, s: S, es: seq<E>, i: nat, j: nat)
    requires i <= j <= |es|
    requires Guarded(next, guard, s, es)
    requires forall t, e {:trigger next(t, e)} :: guard(t, e) ==> rank(t) <= rank(next(t, e))
    ensures rank(At(next, s, es, i)) <= rank(At(next, s, es, j))
  {
    if i < j {
      Monotone(next, guard, rank, s, es, i, j - 1);
      AtNext(next, s, es, j - 1);
      assert guard(At(next, s, es, j - 1), es[j - 1]);
    }
  }

  /** The events a filter keeps. */
  function Filter<E>(keep: E -> bool, es: seq<E>): seq<E> {
    if es == [] then []
    else Filter(keep, es[..|es| - 1]) + if keep(es[|es| - 1]) then [es[|es| - 1]] else []
  }

  /** A part of the state that only the kept events change, and change by itself, is the same
      after the whole run and after the kept events alone. */
  lemma {:induction false} FilterKeeps<S(!new), E(!new), P>(
      next: (S, E) -> S, keep: E -> bool, part: S -> P, s: S, es: seq<E>)
    requires forall t, e {:trigger next(t, e)} :: !keep(e) ==> part(next(t, e)) == part(t)
    requires forall t, t', e {:trigger next(t, e), next(t', e)} ::
               keep(e) && part(t) == part(t') ==> part(next(t, e)) == part(next(t', e))
    ensures part(Run(next, s, es)) == part(Run(next, s, Filter(keep, es)))
  {
    if es != [] {
      var rest, last := es[..|es| - 1], es[|es| - 1];
      FilterKeeps(next, keep, part, s, rest);
      if keep(last) {
        RunExtend(next, s, Filter(keep, rest), last);
      } else {
        assert Filter(keep, es) == Filter(keep, rest);
      }
    }
  }
}
