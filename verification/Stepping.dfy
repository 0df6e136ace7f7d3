/** Positions reached by repeated steps, and how many steps cover a length. */
module Stepping {

  /** Where `k` steps lead. */
  function Steps(step: nat, k: nat): nat {
    if k == 0 then 0 else Steps(step, k - 1) + step
  }

  lemma {:induction false} StepsIsProduct(step: nat, k: nat)
    ensures Steps(step, k) == k * step
  {
    if k > 0 {
      StepsIsProduct(step, k - 1);
      assert k * step == (k - 1) * step + step;
    }
  }

  lemma {:induction false} StepsGrow(step: nat, j: nat, k: nat)
    requires j <= k
    ensures Steps(step, j) <= Steps(step, k) && (step > 0 && j < k ==> Steps(step, j) < Steps(step, k))
    decreases k
  {
    if j < k {
      StepsGrow(step, j, k - 1);
    }
  }

  /** Rounded-up division. */
  function Ceiling(length: nat, step: nat): nat
    requires step > 0
  {
    (length + step - 1) / step
  }

  lemma QuotientBounds(x: nat, step: nat)
    requires step > 0
    ensures (x / step) * step <= x < (x / step) * step + step
  {
  }

  /** That many steps cover the length, and fewer do not. */
  lemma CeilingCovers(length: nat, step: nat)
    requires step > 0
    ensures var n := Ceiling(length, step);
      length <= Steps(step, n) && (n > 0 ==> Steps(step, n - 1) < length)
  {
    var n := Ceiling(length, step);
    QuotientBounds(length + step - 1, step);
    StepsIsProduct(step, n);
  }

  /** Step `k` starts inside the length exactly when it is one of these. */
  lemma StartsInsideIff(length: nat, step: nat, k: nat)
    requires step > 0
    ensures Steps(step, k) < length <==> k < Ceiling(length, step)
  {
    var n := Ceiling(length, step);
    CeilingCovers(length, step);
    if k < n {
      StepsGrow(step, k, n - 1);
    } else {
      StepsGrow(step, n, k);
    }
  }

  function Min(a: nat, b: nat): nat {
    if a <= b then a else b
  }
}
