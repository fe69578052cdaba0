/** The simulated progress bars of the conversion and scan utilities: an interval adds a
    random step to the percentage and stops once it reaches 100, showing exactly 100. */
module Progress {

  /** One interval tick, `newProgress >= 100 ? 100 : newProgress`. */
  function Tick(prev: nat, step: nat): (r: nat)
    ensures prev <= 100 ==> r <= 100
    ensures r == 100 <==> prev + step >= 100
    ensures r < 100 ==> r == prev + step
    ensures prev <= 100 ==> prev <= r
  {
    if prev + step >= 100 then 100 else prev + step
  }

  function Sum(steps: seq<nat>): nat {
    if steps == [] then 0 else Sum(steps[..|steps| - 1]) + steps[|steps| - 1]
  }

  /** Every step adds at least one point, so n steps add at least n. */
  lemma {:induction false} SumAtLeastCount(steps: seq<nat>)
    requires forall k :: 0 <= k < |steps| ==> steps[k] >= 1
    ensures Sum(steps) >= |steps|
  {
    if steps != [] {
      SumAtLeastCount(steps[..|steps| - 1]);
    }
  }

  /** The points of the first ticks never exceed those of all of them. */
  lemma {:induction false} SumOfPrefix(steps: seq<nat>, n: nat)
    requires n <= |steps|
    ensures Sum(steps[..n]) <= Sum(steps)
    decreases |steps| - n
  {
    if n < |steps| {
      var init := steps[..|steps| - 1];
      assert init[..n] == steps[..n];
      SumOfPrefix(init, n);
    } else {
      assert steps[..n] == steps;
    }
  }

  /** The interval from `start`, fed the random steps in the order the ticks fire. It stops
      at the first tick that reaches 100 (`clearInterval`); `ticks` is how many fired. */
  method Run(start: nat, steps: seq<nat>) returns (progress: nat, ticks: nat)
    requires start < 100
    ensures ticks <= |steps| && progress <= 100
    ensures progress == (if start + Sum(steps[..ticks]) >= 100 then 100 else start + Sum(steps[..ticks]))
    ensures ticks < |steps| ==> progress == 100
    ensures ticks > 0 ==> start + Sum(steps[..ticks - 1]) < 100
    ensures progress == (if start + Sum(steps) >= 100 then 100 else start + Sum(steps))
    ensures (forall k :: 0 <= k < |steps| ==> steps[k] >= 1) && |steps| >= 100 - start ==> progress == 100
  {
    progress, ticks := start, 0;
    while ticks < |steps| && progress < 100
      invariant ticks <= |steps| && progress <= 100
      invariant progress < 100 ==> progress == start + Sum(steps[..ticks])
      invariant progress == 100 ==> ticks > 0 && start + Sum(steps[..ticks]) >= 100
      invariant ticks > 0 ==> start + Sum(steps[..ticks - 1]) < 100
    {
      assert steps[..ticks + 1][..ticks] == steps[..ticks];
      progress := Tick(progress, steps[ticks]);
      ticks := ticks + 1;
    }
    if ticks < |steps| {
      SumOfPrefix(steps, ticks);
    } else {
      assert steps[..ticks] == steps;
    }
    if forall k :: 0 <= k < |steps| ==> steps[k] >= 1 {
      assert steps[..ticks] == steps || progress == 100;
      SumAtLeastCount(steps);
    }
  }
}
