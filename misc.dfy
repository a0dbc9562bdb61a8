/** `doNTimes` of src/utils/misc.ts. */
module Misc {

  /**
   * `for (let i = 0; i < n; i++) fn(i)`. The callback's own effects belong to the caller; the
   * model returns the run counts it is handed, in call order. `n` is a JavaScript number, so
   * it may be fractional: the loop runs once per natural number below `n`, so the count is the
   * least natural number at or above `n`.
   */
  method DoNTimes(n: real) returns (runCounts: seq<int>)
    ensures forall k :: 0 <= k < |runCounts| ==> runCounts[k] == k
    ensures n <= 0.0 ==> runCounts == []
    ensures |runCounts| == 0 || ((|runCounts| - 1) as real) < n
    ensures n <= |runCounts| as real
  {
    runCounts := [];
    var i := 0;
    while (i as real) < n
      invariant 0 <= i && (i == 0 || ((i - 1) as real) < n)
      invariant |runCounts| == i
      invariant forall k :: 0 <= k < i ==> runCounts[k] == k
      decreases n - i as real
    {
      runCounts := runCounts + [i];
      i := i + 1;
    }
  }
}
