/** When a BIP 9 deployment starts, locks in and becomes active, read off the chain's history. */
module ActivationLaws {
  import opened Wrappers
  import opened Bounded
  import opened Chain
  import opened VersionBits

  /** The median time past of the last block before the `k`-th period. */
  function MedianBefore(ns: seq<Node>, tip: nat, k: nat, params: DeploymentParams): Option<u32>
    requires Linked(ns) && tip < |ns| && params.period > 0 && k > 0
  {
    MedianAt(ns, tip, Boundary(k, params.period) - 1)
  }

  /** The `j`-th period is a started one, ends before the timeout, and enough of its blocks signal. */
  predicate Signalled(ns: seq<Node>, tip: nat, j: nat, params: DeploymentParams)
    requires Linked(ns) && tip < |ns| && params.period > 0
  {
    var median := MedianBefore(ns, tip, j + 1, params);
    var from, to := Boundary(j, params.period), Boundary(j + 1, params.period);
    && StateOf(ns, tip, j, params).Started?
    && params.bit < 32
    && median.Some? && median.value < params.timeout
    && CountSignals(ns, tip, Max(from, 1), to, params) >= params.threshold
  }

  /** A period is locked in exactly when the one before it was signalled, so lock-in lasts one period. */
  lemma LockedInIff(ns: seq<Node>, tip: nat, k: nat, params: DeploymentParams)
    requires Linked(ns) && tip < |ns| && params.period > 0
    ensures StateOf(ns, tip, k, params).LockedIn? <==> k > 0 && Signalled(ns, tip, k - 1, params)
  {
    if k > 0 {
      assert Boundary(k, params.period) == Boundary(k - 1, params.period) + params.period;
    }
  }

  lemma ActiveStep(ns: seq<Node>, tip: nat, k: nat, params: DeploymentParams)
    requires Linked(ns) && tip < |ns| && params.period > 0 && k > 0
    ensures StateOf(ns, tip, k, params).Active?
            <==> StateOf(ns, tip, k - 1, params).LockedIn? || StateOf(ns, tip, k - 1, params).Active?
  {
  }

  /** A deployment is active exactly when some period at least two before was signalled. */
  lemma {:induction false} ActiveIff(ns: seq<Node>, tip: nat, k: nat, params: DeploymentParams)
    requires Linked(ns) && tip < |ns| && params.period > 0
    ensures StateOf(ns, tip, k, params).Active? <==> exists j: nat :: j + 2 <= k && Signalled(ns, tip, j, params)
    decreases k
  {
    if k > 0 {
      LockedInIff(ns, tip, k - 1, params);
      ActiveIff(ns, tip, k - 1, params);
      ActiveStep(ns, tip, k, params);
    }
  }

  predicate StartReached(ns: seq<Node>, tip: nat, j: nat, params: DeploymentParams)
    requires Linked(ns) && tip < |ns| && params.period > 0
  {
    j > 0 && MedianBefore(ns, tip, j, params).Some? && MedianBefore(ns, tip, j, params).value >= params.startTime
  }

  predicate TimedOut(ns: seq<Node>, tip: nat, j: nat, params: DeploymentParams)
    requires Linked(ns) && tip < |ns| && params.period > 0
  {
    j > 0 && MedianBefore(ns, tip, j, params).Some? && MedianBefore(ns, tip, j, params).value >= params.timeout
  }

  /** While a deployment is undecided it has not timed out, and it has started once its start time was reached. */
  lemma {:induction false} UndecidedIsInTime(ns: seq<Node>, tip: nat, k: nat, params: DeploymentParams)
    requires Linked(ns) && tip < |ns| && params.period > 0
    requires StateOf(ns, tip, k, params).Defined? || StateOf(ns, tip, k, params).Started?
    ensures forall j: nat :: j <= k ==> !TimedOut(ns, tip, j, params)
    ensures StateOf(ns, tip, k, params).Started? <==> exists j: nat :: j <= k && StartReached(ns, tip, j, params)
    decreases k
  {
    if k > 0 {
      StateStep(ns, tip, k, params);
      UndecidedIsInTime(ns, tip, k - 1, params);
      assert !TimedOut(ns, tip, k, params);
      assert StateOf(ns, tip, k, params).Started?
             <==> StateOf(ns, tip, k - 1, params).Started? || StartReached(ns, tip, k, params);
    }
  }
}
