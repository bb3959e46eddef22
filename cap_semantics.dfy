/** The two step caps side by side. `play_episode` tests
    `max_steps and steps >= max_steps` after each step; the visualization
    helpers test `steps < max_steps` before each step. They agree on every
    positive cap and part ways on the others. */
module CapSemantics {
  import opened Wrappers
  import opened Environment
  import RandomAgent
  import Visualization

  /** For a positive cap both loops leave after the same steps. */
  lemma ExitAgreesOnPositiveCap(outcomes: nat -> Outcome, m: int, k: nat)
    requires m > 0
    ensures RandomAgent.StopsAfter(outcomes, Some(m), k) <==> Visualization.LoopExits(outcomes, m, k)
  {
  }

  /** Under a positive cap the agent's episode and the display loop take the
      same number of steps and collect the same reward. */
  lemma PositiveCapAgrees(outcomes: nat -> Outcome, m: int, s1: nat, t1: real, s2: nat, t2: real)
    requires m > 0
    requires RandomAgent.IsEpisode(outcomes, Some(m), s1, t1)
    requires Visualization.IsRun(outcomes, m, s2, t2)
    ensures s1 == s2 && t1 == t2
  {
    ExitAgreesOnPositiveCap(outcomes, m, s1);
    ExitAgreesOnPositiveCap(outcomes, m, s2);
    assert Visualization.LoopExits(outcomes, m, s1);
    assert RandomAgent.StopsAfter(outcomes, Some(m), s2);
  }

  /** Under a cap that is not positive the display loop takes no step, while
      the agent always takes at least one. */
  lemma NonPositiveCapDiffers(outcomes: nat -> Outcome, m: int, s1: nat, t1: real, s2: nat, t2: real)
    requires m <= 0
    requires RandomAgent.IsEpisode(outcomes, Some(m), s1, t1)
    requires Visualization.IsRun(outcomes, m, s2, t2)
    ensures s2 == 0 && t2 == 0.0
    ensures s1 >= 1 && s1 != s2
  {
    Visualization.RunBounds(outcomes, m, s2, t2);
  }

  /** A cap of `0` is falsy: the agent then plays exactly as with no cap. */
  lemma ZeroCapIsNoCap(outcomes: nat -> Outcome, steps: nat, total: real)
    ensures RandomAgent.IsEpisode(outcomes, Some(0), steps, total)
        <==> RandomAgent.IsEpisode(outcomes, None, steps, total)
  {
    assert forall k :: RandomAgent.StopsAfter(outcomes, Some(0), k) == RandomAgent.StopsAfter(outcomes, None, k);
  }
}
