module Schedules {
  // The same step n times.
  function Repeat<T>(e: T, n: nat): (steps: seq<T>)
    ensures |steps| == n
  {
    if n == 0 then [] else [e] + Repeat(e, n - 1)
  }
}
