/** Which heights a block locator names (tree.rs, `block_locator`). */
module Locator {
  import opened Bounded

  /** Heights named from `height` down, `taken` already named, doubling the step after ten. */
  function Heights(height: nat, step: nat, taken: nat, cap: nat): (hs: seq<nat>)
    requires step >= 1
    ensures taken < cap ==> hs != [] && hs[0] == height
    ensures |hs| <= Max(cap - taken, 0)
    decreases height
  {
    if taken >= cap then []
    else if height == 0 then [0]
    else [height] + Heights(Max(height - step, 0), NextStep(step, taken + 1), taken + 1, cap)
  }

  function NextStep(step: nat, taken: nat): (next: nat)
    ensures next >= step
  {
    if taken > 10 then 2 * step else step
  }

  function LocatorHeights(height: nat, cap: nat): seq<nat> { Heights(height, 1, 0, cap) }

  /** Heights strictly descend, stay within the chain, and reach the root unless capped. */
  lemma {:induction false} HeightsDescend(height: nat, step: nat, taken: nat, cap: nat)
    requires step >= 1
    ensures var hs := Heights(height, step, taken, cap);
            && (forall k :: 0 <= k < |hs| ==> hs[k] <= height)
            && (forall j, k :: 0 <= j < k < |hs| ==> hs[j] > hs[k])
            && (taken + |hs| < cap ==> hs != [] && hs[|hs| - 1] == 0)
    decreases height
  {
    if taken < cap && height > 0 {
      HeightsDescend(Max(height - step, 0), NextStep(step, taken + 1), taken + 1, cap);
    }
  }

  /** From the eleventh entry on, the distance to the next doubles. */
  lemma {:induction false} DoublingHeights(height: nat, step: nat, taken: nat, cap: nat, k: nat)
    requires step >= 1 && taken >= 10 && k < |Heights(height, step, taken, cap)|
    ensures Heights(height, step, taken, cap)[k] == Max(height - step * (Pow2(k) - 1), 0)
    decreases k
  {
    if k > 0 {
      DoublingHeights(Max(height - step, 0), 2 * step, taken + 1, cap, k - 1);
      DoubleDistance(step, Pow2(k - 1));
    }
  }

  lemma DoubleDistance(step: nat, p: nat)
    requires p >= 1
    ensures step + (2 * step) * (p - 1) == step * (2 * p - 1) && 0 <= (2 * step) * (p - 1)
  {
  }

  /** The `k`-th entry in closed form: ten single steps, then powers of two. */
  lemma LocatorHeightIs(height: nat, cap: nat, k: nat)
    requires k < |LocatorHeights(height, cap)|
    ensures LocatorHeights(height, cap)[k] == Max(height - if k <= 10 then k else 9 + Pow2(k - 10), 0)
  {
    SteadyHeights(height, 0, cap, k);
  }

  lemma {:induction false} SteadyHeights(height: nat, taken: nat, cap: nat, k: nat)
    requires taken <= 10 && k < |Heights(height, 1, taken, cap)|
    ensures Heights(height, 1, taken, cap)[k]
         == Max(height - if k + taken <= 10 then k else 9 - taken + Pow2(k + taken - 10), 0)
    decreases k
  {
    if taken == 10 {
      DoublingHeights(height, 1, taken, cap, k);
    } else if k > 0 {
      SteadyHeights(Max(height - 1, 0), taken + 1, cap, k - 1);
    }
  }

  /** Once the step doubles, each further entry needs twice the height. */
  lemma {:induction false} DoublingLength(height: nat, step: nat, taken: nat, cap: nat)
    requires step >= 1 && taken >= 10
    ensures var n := |Heights(height, step, taken, cap)|; n >= 3 ==> height >= step * Pow2(n - 3)
    decreases height
  {
    var n := |Heights(height, step, taken, cap)|;
    if n >= 3 {
      var below := Max(height - step, 0);
      assert n == 1 + |Heights(below, 2 * step, taken + 1, cap)|;
      assert below > 0;
      if n >= 4 {
        DoublingLength(below, 2 * step, taken + 1, cap);
        DoubleProduct(step, Pow2(n - 4));
      }
    }
  }

  lemma DoubleProduct(step: nat, p: nat)
    ensures step * (2 * p) == (2 * step) * p
  {
  }

  lemma {:induction false} SteadyLength(height: nat, taken: nat, cap: nat)
    requires taken <= 10
    ensures var n := |Heights(height, 1, taken, cap)|; n >= 13 - taken ==> height >= Pow2(n - (13 - taken))
    decreases height
  {
    if taken == 10 {
      DoublingLength(height, 1, taken, cap);
    } else if taken < cap && height > 0 {
      SteadyLength(height - 1, taken + 1, cap);
    }
  }

  /** A locator of `n` entries needs a height exponential in `n`: its length is logarithmic. */
  lemma LocatorIsLogarithmic(height: nat, cap: nat, k: nat)
    requires height < Pow2(k)
    ensures |LocatorHeights(height, cap)| <= 12 + k
  {
    SteadyLength(height, 0, cap);
    var n := |LocatorHeights(height, cap)|;
    if n >= 13 {
      Pow2Reflects(n - 13, k);
    }
  }
}
