/** Adding up what each of many threads contributes. */
module Sums {

  ghost function Sum(w: seq<nat>): nat {
    if w == [] then 0 else Sum(w[..|w| - 1]) + w[|w| - 1]
  }

  lemma {:induction false} SumUpdate(w: seq<nat>, i: nat, v: nat)
    requires i < |w|
    ensures Sum(w) >= w[i] && Sum(w[i := v]) == Sum(w) - w[i] + v
  {
    var last := |w| - 1;
    if i == last {
      assert w[i := v][..last] == w[..last];
    } else {
      assert w[i := v][..last] == w[..last][i := v];
      SumUpdate(w[..last], i, v);
    }
  }

  lemma {:induction false} SumZero(w: seq<nat>)
    requires forall i: nat | i < |w| :: w[i] == 0
    ensures Sum(w) == 0
  {
    if w != [] { SumZero(w[..|w| - 1]); }
  }
}
