/** Running a list of steps in order until one of them ends the run. */
module EarlyExit {

  /**
   * The steps of `steps` taken in order, up to and including the first one
   * that `ends` the run.
   */
  function UpToFirst<T>(steps: seq<T>, ends: T -> bool): (run: seq<T>)
    ensures run <= steps
    ensures forall i | 0 <= i < |run| - 1 :: !ends(run[i])
    ensures |run| < |steps| ==> |run| > 0 && ends(run[|run| - 1])
    decreases |steps|
  {
    if steps == [] then []
    else if ends(steps[0]) then [steps[0]]
    else [steps[0]] + UpToFirst(steps[1..], ends)
  }

  /** When no step ends the run, every step is taken. */
  lemma {:induction false} UpToFirstRunsAll<T>(steps: seq<T>, ends: T -> bool)
    requires forall i | 0 <= i < |steps| :: !ends(steps[i])
    ensures UpToFirst(steps, ends) == steps
    decreases |steps|
  {
    if steps != [] {
      UpToFirstRunsAll(steps[1..], ends);
    }
  }

  /** The run stops exactly at the first step that ends it. */
  lemma UpToFirstStopsAt<T>(steps: seq<T>, ends: T -> bool, i: nat)
    requires i < |steps| && ends(steps[i]) && forall j | 0 <= j < i :: !ends(steps[j])
    ensures UpToFirst(steps, ends) == steps[..i + 1]
  {
  }

  /** A step that ends the run bounds its length, whether or not an earlier one ends it first. */
  lemma {:induction false} UpToFirstEndsBy<T>(steps: seq<T>, ends: T -> bool, i: nat)
    requires i < |steps| && ends(steps[i])
    ensures |UpToFirst(steps, ends)| <= i + 1
    decreases i
  {
    if !ends(steps[0]) {
      UpToFirstEndsBy(steps[1..], ends, i - 1);
    }
  }
}
