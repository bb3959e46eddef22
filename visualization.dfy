/** The two frame-collecting loops of the visualization helpers:
    `play_and_display` buffers one pre-step frame per step and then builds
    an animation from the list, `play_episode_notebook` shows each frame
    live under a title. Both first give the environment's metadata a
    default `render_fps`. The matplotlib and IPython drawing is not part
    of this model; the notebook's display is recorded as the list of what
    was shown. */
module Visualization {
  import opened Wrappers
  import opened Environment

  /** A value of the environment's metadata dictionary; `PyNone` is an
      explicitly stored `None`, `PyOther` any value the loops never read. */
  datatype PyValue = PyNone | PyInt(i: int) | PyOther(id: nat)

  const RenderFpsKey: string := "render_fps"
  const DefaultRenderFps: int := 30

  /** The environment object as far as the helpers change it in place. */
  class Env {
    var metadata: map<string, PyValue>

    constructor (metadata: map<string, PyValue>)
      ensures this.metadata == metadata
    {
      this.metadata := metadata;
    }
  }

  /** `metadata.get('render_fps') is None`: the key is missing or holds None. */
  predicate FpsMissing(metadata: map<string, PyValue>)
  {
    RenderFpsKey !in metadata || metadata[RenderFpsKey] == PyNone
  }

  /** The metadata after the default is written. */
  function WithDefaultFps(metadata: map<string, PyValue>): (r: map<string, PyValue>)
    ensures r.Keys == metadata.Keys + {RenderFpsKey}
    ensures !FpsMissing(r)
    ensures forall k :: k in metadata && k != RenderFpsKey ==> r[k] == metadata[k]
    ensures FpsMissing(metadata) ==> r[RenderFpsKey] == PyInt(DefaultRenderFps)
    ensures !FpsMissing(metadata) ==> r == metadata
  {
    if FpsMissing(metadata) then metadata[RenderFpsKey := PyInt(DefaultRenderFps)] else metadata
  }

  /** Writing the default twice changes nothing the first write did not. */
  lemma WithDefaultFpsIdempotent(metadata: map<string, PyValue>)
    ensures WithDefaultFps(WithDefaultFps(metadata)) == WithDefaultFps(metadata)
  {
  }

  /** The metadata fix at the top of both helpers. */
  method EnsureRenderFps(env: Env)
    modifies env
    ensures env.metadata == WithDefaultFps(old(env.metadata))
  {
    if FpsMissing(env.metadata) {
      env.metadata := env.metadata[RenderFpsKey := PyInt(DefaultRenderFps)];
    }
  }

  /** `while not done and steps < max_steps` is false at count `k`: the cap
      is reached (checked before the step) or the `k`-th step ended the
      episode. */
  predicate LoopExits(outcomes: nat -> Outcome, maxSteps: int, k: nat)
  {
    k >= maxSteps || (k >= 1 && Ends(outcomes(k - 1)))
  }

  /** `steps` is the first count at which the guarded loop exits, and `total`
      the rewards of those steps. */
  ghost predicate IsRun(outcomes: nat -> Outcome, maxSteps: int, steps: nat, total: real)
  {
    && LoopExits(outcomes, maxSteps, steps)
    && (forall j :: 0 <= j < steps ==> !LoopExits(outcomes, maxSteps, j))
    && total == RewardSum(outcomes, steps)
  }

  /** The guarded loop never passes the cap and takes no step under a cap
      that is not positive. */
  lemma RunBounds(outcomes: nat -> Outcome, maxSteps: int, steps: nat, total: real)
    requires IsRun(outcomes, maxSteps, steps, total)
    ensures maxSteps <= 0 ==> steps == 0 && total == 0.0
    ensures maxSteps > 0 ==> 1 <= steps <= maxSteps
  {
    if maxSteps <= 0 {
      assert LoopExits(outcomes, maxSteps, 0);
    } else if steps > maxSteps {
      assert LoopExits(outcomes, maxSteps, maxSteps);
    }
  }

  /** A stop below the cap happens after a step whose reply ended the
      episode, and no earlier reply ended it. */
  lemma RunStopsAtFirstEnd(outcomes: nat -> Outcome, maxSteps: int, steps: nat, total: real)
    requires IsRun(outcomes, maxSteps, steps, total)
    ensures steps < maxSteps ==> steps >= 1 && Ends(outcomes(steps - 1))
    ensures forall t :: 0 <= t < steps - 1 ==> !Ends(outcomes(t))
  {
    forall t | 0 <= t < steps - 1 ensures !Ends(outcomes(t)) {
      assert !LoopExits(outcomes, maxSteps, t + 1);
    }
  }

  /** The dictionary `play_and_display` returns. */
  datatype DisplayStats = DisplayStats(totalReward: real, steps: nat, frames: nat)

  /** `ax.imshow(frames[0])` on an empty list raises an IndexError. */
  datatype DisplayError = NoFrames

  /** `play_and_display`: the episode is played first, one frame buffered per
      step before that step is taken, and shown afterwards. `render(t)` is
      the frame `env.render()` gives after `t` steps; `frames` is the list
      handed to the animation. */
  method PlayAndDisplay<F>(env: Env, outcomes: nat -> Outcome, render: nat -> F, maxSteps: int := 500)
    returns (r: Result<DisplayStats, DisplayError>, frames: seq<F>)
    modifies env
    ensures env.metadata == WithDefaultFps(old(env.metadata))
    ensures forall i :: 0 <= i < |frames| ==> frames[i] == render(i)
    ensures IsRun(outcomes, maxSteps, |frames|, RewardSum(outcomes, |frames|))
    ensures r.Failure? <==> frames == []
    ensures r.Failure? <==> maxSteps <= 0
    ensures r.Success? ==>
      && r.value.frames == r.value.steps == |frames|
      && IsRun(outcomes, maxSteps, r.value.steps, r.value.totalReward)
  {
    EnsureRenderFps(env);
    frames := [];
    var totalReward := 0.0;
    var steps: nat := 0;
    var done := false;
    while !done && steps < maxSteps
      invariant 0 < steps ==> steps <= maxSteps
      invariant |frames| == steps
      invariant forall i :: 0 <= i < steps ==> frames[i] == render(i)
      invariant totalReward == RewardSum(outcomes, steps)
      invariant forall j :: 0 <= j < steps ==> !LoopExits(outcomes, maxSteps, j)
      invariant done <==> steps >= 1 && Ends(outcomes(steps - 1))
      decreases maxSteps - steps
    {
      var frame := render(steps);
      frames := frames + [frame];
      var outcome := outcomes(steps);
      totalReward := totalReward + outcome.reward;
      steps := steps + 1;
      done := outcome.terminated || outcome.truncated;
    }
    if frames == [] {
      r := Failure(NoFrames);
    } else {
      r := Success(DisplayStats(totalReward, steps, |frames|));
    }
  }

  /** What the notebook shows before each step: the frame and a title with
      the step count and the reward total so far. */
  datatype Shown<F> = Shown(frame: F, steps: nat, totalReward: real)

  /** The dictionary `play_episode_notebook` returns. */
  datatype NotebookStats = NotebookStats(totalReward: real, steps: nat)

  /** `play_episode_notebook`: each frame is shown before the step is taken,
      titled with the counters of the steps before it; `shown` is the
      sequence of displays. */
  method PlayEpisodeNotebook<F>(env: Env, outcomes: nat -> Outcome, render: nat -> F, maxSteps: int := 500)
    returns (r: NotebookStats, shown: seq<Shown<F>>)
    modifies env
    ensures env.metadata == WithDefaultFps(old(env.metadata))
    ensures IsRun(outcomes, maxSteps, r.steps, r.totalReward)
    ensures |shown| == r.steps
    ensures forall i {:trigger shown[i]} :: 0 <= i < |shown| ==>
      shown[i] == Shown(render(i), i, RewardSum(outcomes, i))
  {
    EnsureRenderFps(env);
    var totalReward := 0.0;
    var steps: nat := 0;
    var done := false;
    shown := [];
    while !done && steps < maxSteps
      invariant 0 < steps ==> steps <= maxSteps
      invariant |shown| == steps
      invariant forall i {:trigger shown[i]} :: 0 <= i < steps ==>
        shown[i] == Shown(render(i), i, RewardSum(outcomes, i))
      invariant totalReward == RewardSum(outcomes, steps)
      invariant forall j :: 0 <= j < steps ==> !LoopExits(outcomes, maxSteps, j)
      invariant done <==> steps >= 1 && Ends(outcomes(steps - 1))
      decreases maxSteps - steps
    {
      var frame := render(steps);
      shown := shown + [Shown(frame, steps, totalReward)];
      var outcome := outcomes(steps);
      totalReward := totalReward + outcome.reward;
      steps := steps + 1;
      done := outcome.terminated || outcome.truncated;
    }
    r := NotebookStats(totalReward, steps);
  }
}
