/** The random baseline agent: one episode played until the environment ends
    it or the optional step cap fires, and an evaluation over several
    episodes with its summary statistics.

    The agent's action choice (`action_space.sample()`) is not modelled: the
    replies of the environment are taken as given, step by step, and they
    already stand for whatever actions were drawn. */
module RandomAgent {
  import opened Wrappers
  import opened Environment
  import opened Stats

  /** The dictionary `play_episode` returns. */
  datatype EpisodeResult = EpisodeResult(totalReward: real, steps: nat, terminated: bool, truncated: bool)

  /** The dictionary `evaluate` returns, without `std_reward`. */
  datatype Evaluation = Evaluation(
    meanReward: real,
    minReward: real,
    maxReward: real,
    meanSteps: real,
    episodeRewards: seq<real>,
    episodeLengths: seq<nat>)

  /** `np.min` of an empty list raises a ValueError. */
  datatype EvaluationError = EmptyReduction

  /** `if max_steps and ...`: `None` and `0` are falsy and switch the cap off;
      every other integer, negative ones included, switches it on. */
  predicate CapActive(maxSteps: Option<int>)
  {
    maxSteps.Some? && maxSteps.value != 0
  }

  /** The cap test, made after the counters of the step were incremented. */
  predicate CapFires(maxSteps: Option<int>, steps: nat)
  {
    CapActive(maxSteps) && steps >= maxSteps.value
  }

  /** The loop leaves after its `k`-th step: that step ended the episode, or
      the cap fired once `steps` became `k`. */
  predicate StopsAfter(outcomes: nat -> Outcome, maxSteps: Option<int>, k: nat)
  {
    k >= 1 && (Ends(outcomes(k - 1)) || CapFires(maxSteps, k))
  }

  /** The loop leaves at all: the cap is on, or some step ends the episode. */
  ghost predicate CanFinish(outcomes: nat -> Outcome, maxSteps: Option<int>)
  {
    CapActive(maxSteps) || exists t :: Ends(outcomes(t))
  }

  /** `steps` is the first step after which the loop leaves, and `total` the
      rewards of those steps. */
  ghost predicate IsEpisode(outcomes: nat -> Outcome, maxSteps: Option<int>, steps: nat, total: real)
  {
    && StopsAfter(outcomes, maxSteps, steps)
    && (forall j :: 1 <= j < steps ==> !StopsAfter(outcomes, maxSteps, j))
    && total == RewardSum(outcomes, steps)
  }

  /** An episode record, with the flags of the last step that was executed. */
  ghost predicate IsEpisodeResult(outcomes: nat -> Outcome, maxSteps: Option<int>, r: EpisodeResult)
  {
    && IsEpisode(outcomes, maxSteps, r.steps, r.totalReward)
    && r.terminated == outcomes(r.steps - 1).terminated
    && r.truncated == outcomes(r.steps - 1).truncated
  }

  /** `RandomAgent.play_episode`: reset, then step until `terminated or
      truncated`, with the cap tested after every step. `outcomes(t)` is the
      environment's reply to the step taken after `t` earlier ones. */
  method PlayEpisode(outcomes: nat -> Outcome, maxSteps: Option<int> := None) returns (r: EpisodeResult)
    requires CanFinish(outcomes, maxSteps)
    ensures r.steps >= 1
    ensures IsEpisodeResult(outcomes, maxSteps, r)
  {
    // A step after which the loop is sure to have left, for termination.
    ghost var bound: nat;
    if CapActive(maxSteps) {
      bound := if maxSteps.value >= 1 then maxSteps.value else 1;
    } else {
      ghost var t: nat :| Ends(outcomes(t));
      bound := t + 1;
    }
    assert StopsAfter(outcomes, maxSteps, bound);

    var totalReward := 0.0;
    var steps: nat := 0;
    var done := false;
    var terminated, truncated := false, false;
    while !done
      invariant steps <= bound
      invariant totalReward == RewardSum(outcomes, steps)
      invariant forall j :: 1 <= j < steps ==> !StopsAfter(outcomes, maxSteps, j)
      invariant steps == 0 ==> !done
      invariant steps >= 1 ==> done == Ends(outcomes(steps - 1))
      invariant steps >= 1 ==> terminated == outcomes(steps - 1).terminated
      invariant steps >= 1 ==> truncated == outcomes(steps - 1).truncated
      invariant !done && steps >= 1 ==> !CapFires(maxSteps, steps)
      decreases bound - steps
    {
      var outcome := outcomes(steps);
      terminated, truncated := outcome.terminated, outcome.truncated;
      totalReward := totalReward + outcome.reward;
      steps := steps + 1;
      done := terminated || truncated;
      if CapFires(maxSteps, steps) {
        break;
      }
    }
    r := EpisodeResult(totalReward, steps, terminated, truncated);
  }

  /** `RandomAgent.evaluate`: `numEpisodes` episodes in a row, episode `i`
      answered by `env(i)`, then the statistics of the collected lists. */
  method Evaluate(env: nat -> nat -> Outcome, numEpisodes: int := 10, maxSteps: Option<int> := None)
    returns (r: Result<Evaluation, EvaluationError>)
    requires forall i: nat :: i < numEpisodes ==> CanFinish(env(i), maxSteps)
    ensures r.Failure? <==> numEpisodes <= 0
    ensures r.Success? ==>
      var e := r.value;
      && |e.episodeRewards| == numEpisodes
      && |e.episodeLengths| == numEpisodes
      && (forall i :: 0 <= i < numEpisodes ==>
            IsEpisode(env(i), maxSteps, e.episodeLengths[i], e.episodeRewards[i]))
      && e.minReward in e.episodeRewards
      && e.maxReward in e.episodeRewards
      && (forall i :: 0 <= i < numEpisodes ==>
            e.minReward <= e.episodeRewards[i] <= e.maxReward)
      && e.meanReward == Sum(e.episodeRewards) / (numEpisodes as real)
      && e.minReward <= e.meanReward <= e.maxReward
      && e.meanSteps == Sum(Reals(e.episodeLengths)) / (numEpisodes as real)
      && e.meanSteps >= 1.0
  {
    var episodeRewards: seq<real> := [];
    var episodeLengths: seq<nat> := [];
    var count := if numEpisodes > 0 then numEpisodes else 0;
    for episode := 0 to count
      invariant |episodeRewards| == episode && |episodeLengths| == episode
      invariant forall i :: 0 <= i < episode ==>
        IsEpisode(env(i), maxSteps, episodeLengths[i], episodeRewards[i])
    {
      var stats := PlayEpisode(env(episode), maxSteps);
      episodeRewards := episodeRewards + [stats.totalReward];
      episodeLengths := episodeLengths + [stats.steps];
    }
    if episodeRewards == [] {
      return Failure(EmptyReduction);
    }
    var lengths := Reals(episodeLengths);
    MeanBetweenMinMax(episodeRewards);
    MeanWithin(lengths, 1.0, Max(lengths));
    r := Success(Evaluation(
      Mean(episodeRewards), Min(episodeRewards), Max(episodeRewards), Mean(lengths),
      episodeRewards, episodeLengths));
  }

  /** The record is determined by the replies and the cap: the loop leaves
      at the first step it can leave at. */
  lemma EpisodeUnique(outcomes: nat -> Outcome, maxSteps: Option<int>, s1: nat, t1: real, s2: nat, t2: real)
    requires IsEpisode(outcomes, maxSteps, s1, t1)
    requires IsEpisode(outcomes, maxSteps, s2, t2)
    ensures s1 == s2 && t1 == t2
  {
  }

  /** A positive cap bounds the number of steps. */
  lemma CapBoundsSteps(outcomes: nat -> Outcome, m: int, steps: nat, total: real)
    requires m > 0
    requires IsEpisode(outcomes, Some(m), steps, total)
    ensures 1 <= steps <= m
  {
    if steps > m {
      assert StopsAfter(outcomes, Some(m), m);
    }
  }

  /** A negative cap is truthy and already reached: exactly one step runs. */
  lemma NegativeCapOneStep(outcomes: nat -> Outcome, m: int, steps: nat, total: real)
    requires m < 0
    requires IsEpisode(outcomes, Some(m), steps, total)
    ensures steps == 1 && total == outcomes(0).reward
  {
    if steps > 1 {
      assert StopsAfter(outcomes, Some(m), 1);
    }
  }

  /** Without a cap (`None` or `0`) the loop leaves exactly after the first
      step whose reply ends the episode. */
  lemma NoCapFirstEnd(outcomes: nat -> Outcome, maxSteps: Option<int>, steps: nat, total: real)
    requires !CapActive(maxSteps)
    requires IsEpisode(outcomes, maxSteps, steps, total)
    ensures steps >= 1 && Ends(outcomes(steps - 1))
    ensures forall t :: 0 <= t < steps - 1 ==> !Ends(outcomes(t))
  {
    forall t | 0 <= t < steps - 1 ensures !Ends(outcomes(t)) {
      assert !StopsAfter(outcomes, maxSteps, t + 1);
    }
  }

  /** When the environment does not end any of the first `m` steps, a cap of
      `m` ends the episode after exactly `m` steps with both flags false, so
      a capped run can be told from one the environment ended. */
  lemma CapExitFlags(outcomes: nat -> Outcome, m: int, r: EpisodeResult)
    requires m > 0
    requires forall t :: 0 <= t < m ==> !Ends(outcomes(t))
    requires IsEpisodeResult(outcomes, Some(m), r)
    ensures r.steps == m && !r.terminated && !r.truncated
  {
    CapBoundsSteps(outcomes, m, r.steps, r.totalReward);
  }

  /** Reward 1.0 on every step and an end at the fifth step, without a cap:
      the record is 5.0 reward, 5 steps, terminated and not truncated. */
  lemma FiveStepEpisode(outcomes: nat -> Outcome, r: EpisodeResult)
    requires forall t :: outcomes(t) == Outcome(1.0, t == 4, false)
    requires IsEpisodeResult(outcomes, None, r)
    ensures r == EpisodeResult(5.0, 5, true, false)
  {
  }
}
