/** Counting points in time that fall into a window. */
module Windows {
  /** How many of the times satisfy p. */
  function Count(times: seq<real>, p: real -> bool): nat {
    if times == [] then 0
    else Count(times[..|times| - 1], p) + if p(times[|times| - 1]) then 1 else 0
  }

  /** Any n + 1 successive times span at least `gap`. */
  ghost predicate Spaced(times: seq<real>, n: nat, gap: real) {
    forall i, k :: 0 <= i && i + n <= k < |times| ==> times[k] >= times[i] + gap
  }

  /** Fewer than n + 1 of the times lie in any window shorter than `gap`. */
  lemma {:induction false} SpacedCount(times: seq<real>, n: nat, gap: real, p: real -> bool)
    requires Spaced(times, n, gap)
    requires forall s, t :: p(s) && p(t) ==> t < s + gap
    ensures Count(times, p) <= n
  {
    if times != [] {
      var last := |times| - 1;
      if p(times[last]) {
        forall i | 0 <= i <= last - n ensures !p(times[i]) {
          assert times[last] >= times[i] + gap;
        }
        CountFrom(times, if last + 1 <= n then 0 else last - n + 1, p);
      } else {
        SpacedCount(times[..last], n, gap, p);
      }
    }
  }

  lemma {:induction false} CountFrom(times: seq<real>, from: nat, p: real -> bool)
    requires from <= |times| && forall i :: 0 <= i < from ==> !p(times[i])
    ensures Count(times, p) <= |times| - from
  {
    if times != [] {
      var last := |times| - 1;
      if from == |times| {
        CountFrom(times[..last], last, p);
      } else {
        CountFrom(times[..last], from, p);
      }
    }
  }
}
