/** Runs of the composed system. */
module LinkLossRuns {
  import opened LinkLoss

  lemma {:induction false} RunKeepsInv(s: Sys, steps: seq<Step>, failure: Failure, delay: nat)
    requires Inv(s, failure, delay) && AllEnabled(s, steps, failure, delay)
    ensures Inv(After(s, steps), failure, delay)
  {
    if steps != [] {
      var n := |steps| - 1;
      Earlier(s, steps, failure, delay);
      RunKeepsInv(s, steps[..n], failure, delay);
      StepKeepsInv(After(s, steps[..n]), steps[n], failure, delay);
    }
  }

  lemma Earlier(s: Sys, steps: seq<Step>, failure: Failure, delay: nat)
    requires steps != [] && AllEnabled(s, steps, failure, delay)
    ensures AllEnabled(s, steps[..|steps| - 1], failure, delay)
    ensures Enabled(After(s, steps[..|steps| - 1]), steps[|steps| - 1], failure, delay)
  {
    var n := |steps| - 1;
    forall i | 0 <= i < n ensures Enabled(After(s, steps[..n][..i]), steps[..n][i], failure, delay) {
      assert steps[..n][..i] == steps[..i];
    }
  }

  lemma RunGrows(s: Sys, steps: seq<Step>, step: Step, failure: Failure, delay: nat)
    requires AllEnabled(s, steps, failure, delay) && Enabled(After(s, steps), step, failure, delay)
    ensures AllEnabled(s, steps + [step], failure, delay)
    ensures After(s, steps + [step]) == Apply(After(s, steps), step)
  {
    var more := steps + [step];
    assert more[..|more| - 1] == steps;
    forall i | 0 <= i < |more| ensures Enabled(After(s, more[..i]), more[i], failure, delay) {
      if i < |steps| {
        assert more[..i] == steps[..i];
      }
    }
  }

  /** The system has been running since it was started, with nothing lost yet. */
  ghost predicate Reached(s: Sys, delay: nat) {
    exists robotId, timeout: nat, armEnabled, start: nat, steps ::
      AllEnabled(Initial(robotId, timeout, armEnabled, start), steps, NoFailure, delay)
      && s == After(Initial(robotId, timeout, armEnabled, start), steps)
  }

  lemma ReachedIsSound(s: Sys, delay: nat)
    requires Reached(s, delay)
    ensures Inv(s, NoFailure, delay)
  {
    var robotId, timeout: nat, armEnabled, start: nat, steps :|
      AllEnabled(Initial(robotId, timeout, armEnabled, start), steps, NoFailure, delay)
      && s == After(Initial(robotId, timeout, armEnabled, start), steps);
    InitialInv(robotId, timeout, armEnabled, start, delay);
    RunKeepsInv(Initial(robotId, timeout, armEnabled, start), steps, NoFailure, delay);
  }

  lemma ReachedStep(s: Sys, step: Step, delay: nat)
    requires Reached(s, delay) && Enabled(s, step, NoFailure, delay)
    ensures Reached(Apply(s, step), delay)
  {
    var robotId, timeout: nat, armEnabled, start: nat, steps :|
      AllEnabled(Initial(robotId, timeout, armEnabled, start), steps, NoFailure, delay)
      && s == After(Initial(robotId, timeout, armEnabled, start), steps);
    RunGrows(Initial(robotId, timeout, armEnabled, start), steps, step, NoFailure, delay);
  }

  /** After some such run, `failure` happened and the system went on. */
  ghost predicate ReachedUnder(s: Sys, failure: Failure, delay: nat) {
    exists q, steps :: Reached(q, delay) && AllEnabled(q, steps, failure, delay) && s == After(q, steps)
  }

  lemma ReachedUnderIsSound(s: Sys, failure: Failure, delay: nat)
    requires ReachedUnder(s, failure, delay)
    ensures Inv(s, failure, delay)
  {
    var q, steps :| Reached(q, delay) && AllEnabled(q, steps, failure, delay) && s == After(q, steps);
    ReachedIsSound(q, delay);
    RunKeepsInv(q, steps, failure, delay);
  }

  lemma ReachedUnderStep(s: Sys, step: Step, failure: Failure, delay: nat)
    requires ReachedUnder(s, failure, delay) && Enabled(s, step, failure, delay)
    ensures ReachedUnder(Apply(s, step), failure, delay)
  {
    var q, steps :| Reached(q, delay) && AllEnabled(q, steps, failure, delay) && s == After(q, steps);
    RunGrows(q, steps, step, failure, delay);
  }
}
