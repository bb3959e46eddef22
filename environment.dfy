/** The Gymnasium environment, seen only through what the episode loops read
    from it. The replies stand for whatever actions the agent chose, so the
    observation and the info dictionary returned by `reset` and `step` are
    not modelled: an outcome keeps only the reward and the two end flags. */
module Environment {

  /** What one call of `env.step(action)` reports to the loops. */
  datatype Outcome = Outcome(reward: real, terminated: bool, truncated: bool)

  /** The loops' `done = terminated or truncated`. */
  predicate Ends(o: Outcome)
  {
    o.terminated || o.truncated
  }

  /** The rewards of the first `n` steps of an episode, added in play order.
      `outcomes(t)` is the reply to the step taken after `t` earlier steps. */
  function RewardSum(outcomes: nat -> Outcome, n: nat): real
  {
    if n == 0 then 0.0 else RewardSum(outcomes, n - 1) + outcomes(n - 1).reward
  }

  /** The sum only reads the first `n` replies: two episodes that agree on
      them have the same reward total. */
  lemma {:induction false} RewardSumPrefix(a: nat -> Outcome, b: nat -> Outcome, n: nat)
    requires forall t :: 0 <= t < n ==> a(t) == b(t)
    ensures RewardSum(a, n) == RewardSum(b, n)
  {
    if n > 0 {
      RewardSumPrefix(a, b, n - 1);
    }
  }

  /** A reward of `c` on every step sums to `n * c` after `n` steps. */
  lemma {:induction false} RewardSumConstant(outcomes: nat -> Outcome, c: real, n: nat)
    requires forall t :: 0 <= t < n ==> outcomes(t).reward == c
    ensures RewardSum(outcomes, n) == (n as real) * c
  {
    if n > 0 {
      RewardSumConstant(outcomes, c, n - 1);
      assert (n as real) * c == ((n - 1) as real) * c + c;
    }
  }
}
