/** The node-wide timestamp source: a simplified hybrid logical clock. */
module Timestamps {
  import opened Arithmetic
  import opened Bytes

  /** `max(prev + 1, wall)`, where the addition stops at the largest `i64`. */
  function NextStamp(prev: I64, wall: I64): (r: I64)
    ensures prev < I64_MAX ==> r > prev
    ensures r >= prev && r >= wall
    ensures r == wall || r == prev + 1 || (r == prev && prev == I64_MAX)
  {
    Max(if prev == I64_MAX then prev else prev + 1, wall)
  }

  class TimestampSource {
    var last: I64

    constructor ()
      ensures last == 0
    {
      last := 0;
    }

    /**
     The compare-and-swap loop. `foreign[i]` is what another thread stores between the load and the
     exchange of round `i`; threads only ever raise the clock, so a smaller value changes nothing.
     */
    method Next(wall: I64, foreign: seq<I64>) returns (stamp: I64)
      modifies this
      ensures last == stamp && stamp >= wall
      ensures old(last) < I64_MAX ==> stamp > old(last)
      ensures forall i | 0 <= i < |foreign| && foreign[i] < I64_MAX :: stamp > foreign[i]
      ensures foreign == [] ==> stamp == NextStamp(old(last), wall)
    {
      var i := 0;
      while true
        invariant i <= |foreign| && old(last) <= last
        invariant foreign == [] ==> last == old(last)
        invariant forall k | 0 <= k < i :: foreign[k] <= last
        decreases |foreign| - i
      {
        var prev := last;
        var candidate := NextStamp(prev, wall);
        if i < |foreign| {
          last := Max(last, foreign[i]);
          i := i + 1;
        } else {
          last := candidate;
          return candidate;
        }
      }
    }

    method Observe(observed: I64)
      modifies this
      ensures last == Max(old(last), observed)
    {
      last := Max(last, observed);
    }
  }
}
