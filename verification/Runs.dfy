/**
 Runs of a store: a log of steps from an initial state, where a step function says for each state
 whether the code would take the step there, and what it leads to. Nothing else restricts a run, so
 what holds of every run is a consequence of the code's own checks. Every prefix of a run is a run,
 which is what a crash leaves.
 */
module Runs {
  import opened Prelude

  ghost function Run<S, O>(init: S, step: (S, O) -> Option<S>, log: seq<O>): Option<S> {
    if log == [] then Some(init)
    else
      var before := Run(init, step, log[..|log| - 1]);
      if before.None? then None else step(before.value, log[|log| - 1])
  }

  lemma RunMore<S, O>(init: S, step: (S, O) -> Option<S>, log: seq<O>, op: O)
    requires Run(init, step, log).Some?
    ensures Run(init, step, log + [op]) == step(Run(init, step, log).value, op)
  {
    assert (log + [op])[..|log|] == log;
  }

  lemma {:induction false} PrefixRuns<S, O>(init: S, step: (S, O) -> Option<S>, log: seq<O>, n: nat)
    requires Run(init, step, log).Some? && n <= |log|
    ensures Run(init, step, log[..n]).Some?
    decreases |log|
  {
    if n < |log| {
      PrefixRuns(init, step, log[..|log| - 1], n);
      assert log[..|log| - 1][..n] == log[..n];
    } else {
      assert log[..n] == log;
    }
  }

  lemma StepAt<S, O>(init: S, step: (S, O) -> Option<S>, log: seq<O>, i: nat)
    requires Run(init, step, log).Some? && i < |log|
    ensures Run(init, step, log[..i]).Some?
    ensures Run(init, step, log[..i + 1]) == step(Run(init, step, log[..i]).value, log[i])
    ensures step(Run(init, step, log[..i]).value, log[i]).Some?
  {
    PrefixRuns(init, step, log, i + 1);
    assert log[..i + 1][..i] == log[..i];
  }
}
