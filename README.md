# Random-agent episode loops, modelled in Dafny

This project models the episode-control core of a Ms. Pac-Man baseline built on
Gymnasium. It covers a random agent and two helpers that display its games:

- `RandomAgent.play_episode` resets the environment and steps it until a step
  reports `terminated or truncated`. An optional step cap is tested after the
  counters are incremented, behind Python's truthiness test
  (`if max_steps and steps >= max_steps`).
- `RandomAgent.evaluate` plays a number of episodes in a row. It collects the
  reward totals and step counts in play order, then reports their mean, minimum
  and maximum and the mean step count.
- `play_and_display` buffers one frame per step, rendered before the step, and
  then animates the buffer. `play_episode_notebook` shows each frame live, with
  a title carrying the counters of the steps before it. Both test the cap
  `steps < max_steps` before every step. Both first write `render_fps = 30` into
  the environment's metadata when that entry is missing or `None`.

The environment is an oracle. For one episode, `outcomes(t)` is the reply
(reward, `terminated`, `truncated`) to the step taken after `t` earlier steps,
and `render(t)` is the frame `env.render()` gives at that point. For an
evaluation, `env(i)` gives the replies of episode `i`. The replies stand for
whatever actions the agent chose, so the observation and the info dictionary
are not modelled.
The one part of the environment that the core changes in place is its metadata
dictionary. It is the field of the class `Visualization.Env`.

The loops are `while` and `for` loops over local counters. Each is proved
against a relational specification:

- `RandomAgent.IsEpisode` says the returned step count is the first step after
  which the loop may leave, and the reward is the sum of those steps' rewards.
- `Visualization.IsRun` says the same for the guarded loop.

Files:

- `wrappers.dfy`: `Option` and `Result`.
- `environment.dfy`: the step outcome and the reward sum.
- `stats.dfy`: `np.mean`, `np.min` and `np.max` over real numbers.
- `random_agent.dfy`: `play_episode` and `evaluate`.
- `visualization.dfy`: the metadata default and the two display loops.
- `cap_semantics.dfy`: the two cap rules compared.

Three edge cases of the code that the model keeps as they are:

- **Zero episodes.** `evaluate` has no guard on `num_episodes`. With
  `num_episodes <= 0`, `range(num_episodes)` is empty and no episode runs
  (gamer/agents/random_agent.py:106). `np.mean([])` then gives NaN and
  `np.min([])` raises a ValueError (gamer/agents/random_agent.py:116-118).
  `Evaluate` returns `Failure(EmptyReduction)` exactly when `numEpisodes <= 0`.
- **Non-positive caps.** The cap test `if max_steps and steps >= max_steps`
  (gamer/agents/random_agent.py:80) is a truthiness test. `None` and `0` switch
  the cap off. A negative cap is truthy and already reached, so the loop breaks
  after exactly one step.
- **Flags after a cap exit.** The returned `terminated`/`truncated` are the
  flags of the last step taken (gamer/agents/random_agent.py:86-87). At least
  one of them is true when the step that hit the cap also ended the episode. They are both
  false when the environment had not ended the episode (see `CapExitFlags`).

Default arguments are kept: `PlayEpisode` has `maxSteps := None`,
`Evaluate` has `numEpisodes := 10` and `maxSteps := None`, and
`PlayAndDisplay` and `PlayEpisodeNotebook` have `maxSteps := 500`.

## Model

| member | source | states |
|---|---|---|
| `Environment.Ends` | gamer/agents/random_agent.py:78 | defines `done = terminated or truncated` for one step's reply |
| `Environment.RewardSum` | gamer/agents/random_agent.py:76 | defines the running `total_reward += reward`: the rewards of the first `n` steps added in play order |
| `Stats.Mean` | gamer/agents/random_agent.py:116 | defines `np.mean` of a non-empty list: the sum divided by the number of entries |
| `RandomAgent.CapActive` | gamer/agents/random_agent.py:80 | defines the truthiness of `max_steps`: `None` and `0` switch the cap off, every other integer switches it on |
| `RandomAgent.CapFires` | gamer/agents/random_agent.py:80-81 | defines the break test `max_steps and steps >= max_steps`, made after the counters are incremented |
| `RandomAgent.StopsAfter` | gamer/agents/random_agent.py:78-81 | defines when the loop leaves after its k-th step: that step's reply ended the episode, or the cap fired at k |
| `RandomAgent.IsEpisodeResult` | gamer/agents/random_agent.py:83-88 | defines the returned record: an `IsEpisode` step count and total, with the terminated/truncated flags of step `steps - 1` |
| `RandomAgent.IsEpisode` | gamer/agents/random_agent.py:68-81 | defines the first-exit relation: the step count is the first step after which the loop may leave, and the total is the sum of those steps' rewards |
| `Visualization.FpsMissing` | gamer/utils/visualization.py:28 | defines `env.metadata.get('render_fps') is None`: the key is missing or holds `None` |
| `Visualization.LoopExits` | gamer/utils/visualization.py:41 | defines the negation of `not done and steps < max_steps`: the cap is reached or the last step ended the episode |
| `Visualization.IsRun` | gamer/utils/visualization.py:114-131 | defines the first-exit relation of the guarded loop: the step count is the first count at which the guard fails, and the total is the sum of those steps' rewards |
| `RandomAgent.PlayEpisode` | gamer/agents/random_agent.py:52-88 | at least one step runs; the step count is the first step whose reply ends the episode or after which an active cap is reached; the reward is the in-order sum of exactly those steps' rewards; the flags are those of the last step taken |
| `RandomAgent.Evaluate` | gamer/agents/random_agent.py:90-123 | fails exactly when `numEpisodes <= 0`; otherwise both lists have `numEpisodes` entries and entry `i` is episode `i`'s reward and length; the min and max are members of the reward list and bound every entry; the mean is the sum over the count and lies between them; the mean step count is the sum of lengths over the count and is at least 1 |
| `RandomAgent.EpisodeUnique` | gamer/agents/random_agent.py:68-81 | the replies and the cap determine the step count and the reward total |
| `RandomAgent.CapBoundsSteps` | gamer/agents/random_agent.py:80-81 | under a positive cap `m` the episode takes between 1 and `m` steps |
| `RandomAgent.NegativeCapOneStep` | gamer/agents/random_agent.py:80-81 | a negative cap is truthy and already reached, so exactly one step runs and the total is its reward |
| `RandomAgent.NoCapFirstEnd` | gamer/agents/random_agent.py:68-78 | with no active cap the episode stops at the first step whose reply is terminated or truncated, and no earlier reply ends it |
| `RandomAgent.CapExitFlags` | gamer/agents/random_agent.py:70-88 | if none of the first `m` replies ends the episode, a cap of `m` stops after exactly `m` steps with both flags false |
| `RandomAgent.FiveStepEpisode` | gamer/agents/random_agent.py:63-88 | reward 1.0 per step and termination at step 5, with no cap, yields 5.0 reward, 5 steps, terminated and not truncated |
| `Environment.RewardSumPrefix` | gamer/agents/random_agent.py:76 | the accumulated reward after `n` steps depends only on the first `n` replies |
| `Environment.RewardSumConstant` | gamer/agents/random_agent.py:76 | a constant per-step reward `c` accumulates to `n * c` after `n` steps |
| `Stats.Min` | gamer/agents/random_agent.py:118 | the minimum is an entry of the list and no entry is smaller |
| `Stats.Max` | gamer/agents/random_agent.py:119 | the maximum is an entry of the list and no entry is larger |
| `Stats.MeanWithin` | gamer/agents/random_agent.py:120 | any common lower and upper bound of the entries bounds their mean |
| `Stats.MeanBetweenMinMax` | gamer/agents/random_agent.py:116-119 | the mean reward lies between the minimum and the maximum reward |
| `Stats.ConstantStatistics` | gamer/agents/random_agent.py:116-120 | entries that all equal `c` give mean, minimum and maximum `c` |
| `Visualization.WithDefaultFps` | gamer/utils/visualization.py:28-29 | afterwards `render_fps` is present and not `None`; it becomes 30 exactly when it was missing or `None`; an existing value and every other key are unchanged |
| `Visualization.WithDefaultFpsIdempotent` | gamer/utils/visualization.py:99-100 | writing the default a second time changes nothing |
| `Visualization.EnsureRenderFps` | gamer/utils/visualization.py:99-100 | the environment's metadata is updated in place to the defaulted dictionary |
| `Visualization.RunBounds` | gamer/utils/visualization.py:41 | the guarded loop takes no step when the cap is not positive, and otherwise between 1 and `max_steps` steps |
| `Visualization.RunStopsAtFirstEnd` | gamer/utils/visualization.py:114-131 | if the loop stops before the cap, its last step ended the episode; no earlier step did |
| `Visualization.PlayAndDisplay` | gamer/utils/visualization.py:12-83 | one frame per executed step, frame `i` rendered before step `i + 1`; the steps and reward follow the guarded loop; the frame count equals the step count; the metadata is defaulted; the call fails on `frames[0]` exactly when the cap is not positive |
| `Visualization.PlayEpisodeNotebook` | gamer/utils/visualization.py:86-138 | one display per executed step; display `i` shows frame `i` titled with step count `i` and the reward of the first `i` steps; steps and reward follow the guarded loop; the metadata is defaulted |
| `CapSemantics.ExitAgreesOnPositiveCap` | gamer/utils/visualization.py:41 | for a positive cap, the after-increment test and the before-step guard leave the loop after the same steps |
| `CapSemantics.PositiveCapAgrees` | gamer/utils/visualization.py:41-52 | for a positive cap the agent's episode and the display loop take the same steps and collect the same reward |
| `CapSemantics.NonPositiveCapDiffers` | gamer/utils/visualization.py:114 | for a cap that is not positive the display loop takes no step, while the agent takes at least one |
| `CapSemantics.ZeroCapIsNoCap` | gamer/agents/random_agent.py:80 | a cap of 0 is falsy: the agent's episode is the same as with no cap |

## Left out

- Action selection (`select_action`, `action_space.sample()`) and seeding (`np.random.seed`, `action_space.seed`). These use a process-wide random generator inside libraries that are not visible here. The replies of the environment stand for whatever actions were drawn. Reproducibility under a seed is therefore not modelled.
- Environment internals (`reset`, `step`, `render`, `gym.make`, `env.spec`). These are foreign code. They appear only as the oracle parameters `outcomes`, `env` and `render`. Exceptions they raise are not modelled.
- `std_reward` (`np.std`). It needs a floating-point square root. `RandomAgent.Evaluation` has no such field.
- Floating point. Rewards and means are exact reals, so rounding in the sums and divisions is not modelled. Integer-valued Atari rewards are represented exactly.
- `time.sleep` pacing in `play_episode`. It affects timing only.
- Termination of `play_episode` is proved only under `CanFinish`: an active cap, or some step whose reply ends the episode. The source would loop forever otherwise.
- The matplotlib and IPython side: the figure, `imshow`, the animation's `update_frame` titles and its duration, `plt.pause`, `clear_output` and `display`, the `interval` argument, and the `warnings` filters. These are display only. The notebook's displays are kept only as the list of frames and title counters shown.
- `print` reporting and the `main` functions. These are I/O.
- `test_setup.py` checks dependencies and `view_gameplay.py` wires a script to `play_and_display`. Neither is part of this model.
