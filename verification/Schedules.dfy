/** Runs of a step function over a schedule of events. */
module Schedules {

  /** The state after a schedule. */
  function Run<S, E>(next: (S, E) -> S, s: S, es: seq<E>): S {
    if es == [] then s else next(Run(next, s, es[..|es| - 1]), es[|es| - 1])
  }

  lemma {:induction false} RunConcat<S, E>(next: (S, E) -> S, s: S, es: seq<E>, more: seq<E>)
    ensures Run(next, s, es + more) == Run(next, Run(next, s, es), more)
  {
    if more == [] {
      assert es + more == es;
    } else {
      var n := |more| - 1;
      assert (es + more)[..|es| + n] == es + more[..n];
      RunConcat(next, s, es, more[..n]);
    }
  }

  lemma RunOne<S, E>(next: (S, E) -> S, s: S, e: E)
    ensures Run(next, s, [e]) == next(s, e)
  {
    assert [e][..0] == [];
  }

  lemma RunTwo<S, E>(next: (S, E) -> S, s: S, e0: E, e1: E)
    ensures Run(next, s, [e0, e1]) == next(next(s, e0), e1)
  {
    RunOne(next, s, e0);
    assert [e0, e1][..1] == [e0];
  }

  lemma RunThree<S, E>(next: (S, E) -> S, s: S, e0: E, e1: E, e2: E)
    ensures Run(next, s, [e0, e1, e2]) == next(next(next(s, e0), e1), e2)
  {
    RunTwo(next, s, e0, e1);
    assert [e0, e1, e2][..2] == [e0, e1];
  }

  // One event over and over.

  function Repeated<E>(e: E, n: nat): seq<E> {
    seq(n, _ => e)
  }

  function Times<S, E>(next: (S, E) -> S, s: S, e: E, n: nat): S {
    if n == 0 then s else next(Times(next, s, e, n - 1), e)
  }

  lemma {:induction false} RunRepeated<S, E>(next: (S, E) -> S, s: S, e: E, n: nat)
    ensures Run(next, s, Repeated(e, n)) == Times(next, s, e, n)
  {
    if n > 0 {
      RunRepeated(next, s, e, n - 1);
      assert Repeated(e, n)[..n - 1] == Repeated(e, n - 1);
    }
  }

  lemma RunStarting<S, E>(next: (S, E) -> S, s: S, start: E, e: E, n: nat)
    ensures Run(next, s, [start] + Repeated(e, n)) == Times(next, next(s, start), e, n)
  {
    RunConcat(next, s, [start], Repeated(e, n));
    RunOne(next, s, start);
    RunRepeated(next, next(s, start), e, n);
  }

  /** A state the event does not change any more stays. */
  lemma {:induction false} TimesStays<S, E>(next: (S, E) -> S, s: S, e: E, k: nat, n: nat)
    requires k <= n && next(Times(next, s, e, k), e) == Times(next, s, e, k)
    ensures Times(next, s, e, n) == Times(next, s, e, k)
  {
    if k < n {
      TimesStays(next, s, e, k, n - 1);
    }
  }

  lemma TimesStep<S, E>(next: (S, E) -> S, s: S, e: E, n: nat)
    ensures Times(next, s, e, 0) == s && Times(next, s, e, n + 1) == next(Times(next, s, e, n), e)
  {}
}
