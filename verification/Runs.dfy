/** Runs of a state machine: any sequence of actions, each taking the machine one step further. */
module Runs {
  function Run<S, A>(step: (S, A) -> S, s: S, actions: seq<A>): S
    decreases |actions|
  {
    if actions == [] then s else Run(step, step(s, actions[0]), actions[1..])
  }

  lemma {:induction false} RunAppends<S, A>(step: (S, A) -> S, s: S, first: seq<A>, second: seq<A>)
    ensures Run(step, s, first + second) == Run(step, Run(step, s, first), second)
    decreases |first|
  {
    if first == [] {
      assert first + second == second;
    } else {
      assert (first + second)[1..] == first[1..] + second;
      RunAppends(step, step(s, first[0]), first[1..], second);
    }
  }

  /** The last action of a run, and the run before it. */
  lemma RunLast<S, A>(step: (S, A) -> S, s: S, actions: seq<A>)
    requires actions != []
    ensures var n := |actions| - 1; Run(step, s, actions) == step(Run(step, s, actions[..n]), actions[n])
  {
    var n := |actions| - 1;
    assert actions == actions[..n] + [actions[n]];
    RunAppends(step, s, actions[..n], [actions[n]]);
    OneStep(step, Run(step, s, actions[..n]), actions[n]);
  }

  lemma OneStep<S, A>(step: (S, A) -> S, s: S, a: A)
    ensures Run(step, s, [a]) == step(s, a)
  {
    assert Run(step, s, [a]) == Run(step, step(s, a), [a][1..]);
  }

  lemma TwoSteps<S, A>(step: (S, A) -> S, s: S, a: A, b: A)
    ensures Run(step, s, [a, b]) == step(step(s, a), b)
  {
    assert [a, b] == [a] + [b];
    RunAppends(step, s, [a], [b]);
    OneStep(step, s, a);
    OneStep(step, step(s, a), b);
  }

  lemma ThreeSteps<S, A>(step: (S, A) -> S, s: S, a: A, b: A, c: A)
    ensures Run(step, s, [a, b, c]) == step(step(step(s, a), b), c)
  {
    assert [a, b, c] == [a, b] + [c];
    RunAppends(step, s, [a, b], [c]);
    TwoSteps(step, s, a, b);
    OneStep(step, step(step(s, a), b), c);
  }

  lemma FourSteps<S, A>(step: (S, A) -> S, s: S, a: A, b: A, c: A, d: A)
    ensures Run(step, s, [a, b, c, d]) == step(step(step(step(s, a), b), c), d)
  {
    assert [a, b, c, d] == [a, b] + [c, d];
    RunAppends(step, s, [a, b], [c, d]);
    TwoSteps(step, s, a, b);
    TwoSteps(step, step(step(s, a), b), c, d);
  }
}
