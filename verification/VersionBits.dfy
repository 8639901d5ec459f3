/** BIP 9 deployment states along one chain (bip9.rs; "State transitions" of BIP 9). */
module VersionBits {
  import opened Wrappers
  import opened Bounded
  import opened Chain
  import opened MedianTime

  datatype DeploymentState = Defined | Started | LockedIn | Active | Failed {
    function CacheTag(): nat {
      match this
      case Defined => 0
      case Started => 1
      case LockedIn => 2
      case Active => 3
      case Failed => 4
    }

    static function FromCacheTag(tag: nat): Option<DeploymentState> {
      match tag
      case 0 => Some(Defined)
      case 1 => Some(Started)
      case 2 => Some(LockedIn)
      case 3 => Some(DeploymentState.Active)
      case 4 => Some(Failed)
      case _ => None
    }
  }

  datatype DeploymentParams = DeploymentParams(bit: nat, startTime: u32, timeout: u32, period: u32, threshold: u32) {
    /** The three top version bits are 001 and the deployment's own bit is set. */
    predicate Signals(version: int) {
      var word := version % 0x1_0000_0000;
      bit < 32 && word / 0x2000_0000 == 1 && (word / Pow2(bit)) % 2 == 1
    }
  }

  /** The ancestor of the tip at a height, if the chain is that high. */
  function AtHeight(ns: seq<Node>, tip: nat, h: nat): (id: Option<nat>)
    requires Linked(ns) && tip < |ns|
    ensures id.Some? ==> id.value < |ns|
  {
    if h <= ns[tip].height then Some(AncestorAt(ns, tip, h)) else None
  }

  predicate SignalsAt(ns: seq<Node>, tip: nat, h: nat, params: DeploymentParams)
    requires Linked(ns) && tip < |ns|
  {
    var id := AtHeight(ns, tip, h);
    id.Some? && params.Signals(ns[id.value].header.version)
  }

  /** Signalling blocks at heights from `lo` up to but not including `hi`. */
  function CountSignals(ns: seq<Node>, tip: nat, lo: nat, hi: nat, params: DeploymentParams): nat
    requires Linked(ns) && tip < |ns|
    decreases hi
  {
    if hi <= lo then 0
    else CountSignals(ns, tip, lo, hi - 1, params) + if SignalsAt(ns, tip, hi - 1, params) then 1 else 0
  }

  /** One transition, from the state of the period before height `boundary`. */
  function Transition(prior: DeploymentState, median: Option<u32>, count: nat, params: DeploymentParams): DeploymentState {
    match prior
    case Defined =>
      if median.None? then Defined
      else if median.value >= params.timeout then Failed
      else if median.value >= params.startTime then Started
      else Defined
    case Started =>
      if median.None? then Started
      else if median.value >= params.timeout then Failed
      else if params.bit >= 32 then Started
      else if count >= params.threshold then LockedIn
      else Started
    case LockedIn => DeploymentState.Active
    case Active => DeploymentState.Active
    case Failed => Failed
  }

  function MedianAt(ns: seq<Node>, tip: nat, h: nat): Option<u32>
    requires Linked(ns) && tip < |ns|
  {
    var id := AtHeight(ns, tip, h);
    if id.None? then None else Some(MedianTimePast(ns, id.value))
  }

  /** The height at which the `k`-th period starts. */
  function Boundary(k: nat, period: nat): (h: nat)
    ensures k > 0 ==> h >= period
  {
    if k == 0 then 0 else Boundary(k - 1, period) + period
  }

  lemma {:induction false} BoundaryIsProduct(k: nat, period: nat)
    ensures Boundary(k, period) == k * period
  {
    if k > 0 { BoundaryIsProduct(k - 1, period); }
  }

  /** The state after the period that runs from height `before` up to `boundary`. */
  function NextState(ns: seq<Node>, tip: nat, prior: DeploymentState, before: nat, boundary: nat, params: DeploymentParams)
    : DeploymentState
    requires Linked(ns) && tip < |ns| && boundary > 0
  {
    Transition(prior, MedianAt(ns, tip, boundary - 1), CountSignals(ns, tip, Max(before, 1), boundary, params), params)
  }

  /** The state of the `k`-th period of the tip's chain. */
  function StateOf(ns: seq<Node>, tip: nat, k: nat, params: DeploymentParams): DeploymentState
    requires Linked(ns) && tip < |ns| && params.period > 0
    decreases k
  {
    if k == 0 then Defined
    else
      NextState(ns, tip, StateOf(ns, tip, k - 1, params), Boundary(k - 1, params.period), Boundary(k, params.period), params)
  }

  // ---- Each state is left once and for all ----

  function Rank(s: DeploymentState): nat { s.CacheTag() }

  lemma TransitionRanks(prior: DeploymentState, median: Option<u32>, count: nat, params: DeploymentParams)
    ensures Rank(prior) <= Rank(Transition(prior, median, count, params))
  {
  }

  lemma StateStep(ns: seq<Node>, tip: nat, k: nat, params: DeploymentParams)
    requires Linked(ns) && tip < |ns| && params.period > 0 && k > 0
    ensures Rank(StateOf(ns, tip, k - 1, params)) <= Rank(StateOf(ns, tip, k, params))
  {
    var before, boundary := Boundary(k - 1, params.period), Boundary(k, params.period);
    TransitionRanks(StateOf(ns, tip, k - 1, params), MedianAt(ns, tip, boundary - 1),
                    CountSignals(ns, tip, Max(before, 1), boundary, params), params);
  }

  /** The states of the periods up to and including the `k`-th. */
  function History(ns: seq<Node>, tip: nat, k: nat, params: DeploymentParams): (h: seq<DeploymentState>)
    requires Linked(ns) && tip < |ns| && params.period > 0
    ensures |h| == k + 1 && forall j :: 0 <= j <= k ==> h[j] == StateOf(ns, tip, j, params)
  {
    seq(k + 1, j requires 0 <= j <= k => StateOf(ns, tip, j, params))
  }

  predicate NeverReturns(h: seq<DeploymentState>) {
    forall i, j :: 0 <= i <= j < |h| ==> Rank(h[i]) <= Rank(h[j])
  }

  /** No chain ever comes back to a state it has left. */
  lemma {:induction false} HistoryNeverReturns(ns: seq<Node>, tip: nat, k: nat, params: DeploymentParams)
    requires Linked(ns) && tip < |ns| && params.period > 0
    ensures NeverReturns(History(ns, tip, k, params))
  {
    if k > 0 {
      HistoryNeverReturns(ns, tip, k - 1, params);
      StateStep(ns, tip, k, params);
      var shorter, whole := History(ns, tip, k - 1, params), History(ns, tip, k, params);
      assert forall i :: 0 <= i < k ==> whole[i] == shorter[i];
      assert forall i :: 0 <= i < k ==> Rank(shorter[i]) <= Rank(shorter[k - 1]);
    }
  }

  /** The first period of the current run of a state, found by scanning down one by one. */
  function Since(h: seq<DeploymentState>, k: nat): (first: nat)
    requires k < |h|
    ensures first <= k
  {
    if k > 0 && h[k - 1] == h[k] then Since(h, k - 1) else k
  }

  /** Up to a period, the periods sharing its state are exactly those from `Since` on. */
  lemma {:induction false} SinceSeparates(h: seq<DeploymentState>, j: nat, k: nat)
    requires j <= k < |h| && NeverReturns(h)
    ensures h[j] == h[k] <==> Since(h, k) <= j
    decreases k
  {
    if j < k {
      SinceSeparates(h, j, k - 1);
      assert Rank(h[j]) <= Rank(h[k - 1]) <= Rank(h[k]);
      RankIdentifies(h[j], h[k]);
      RankIdentifies(h[k - 1], h[k]);
    }
  }

  lemma RankIdentifies(s: DeploymentState, t: DeploymentState)
    ensures Rank(s) == Rank(t) <==> s == t
    ensures DeploymentState.FromCacheTag(s.CacheTag()) == Some(s)
  {
  }

  // ---- What a period's state depends on ----

  lemma AtHeightOfAncestor(ns: seq<Node>, tip: nat, anchor: nat, h: nat)
    requires Linked(ns) && tip < |ns| && IsAncestor(ns, anchor, tip) && h <= ns[anchor].height
    ensures AtHeight(ns, anchor, h) == AtHeight(ns, tip, h)
  {
    AncestorStep(ns, tip, anchor, h);
  }

  lemma {:induction false} CountOfAncestor(ns: seq<Node>, tip: nat, anchor: nat, lo: nat, hi: nat, params: DeploymentParams)
    requires Linked(ns) && tip < |ns| && IsAncestor(ns, anchor, tip) && hi <= ns[anchor].height + 1
    ensures CountSignals(ns, anchor, lo, hi, params) == CountSignals(ns, tip, lo, hi, params)
    decreases hi
  {
    if hi > lo {
      CountOfAncestor(ns, tip, anchor, lo, hi - 1, params);
      AtHeightOfAncestor(ns, tip, anchor, hi - 1);
    }
  }

  lemma NextOfAncestor(ns: seq<Node>, tip: nat, anchor: nat, prior: DeploymentState, before: nat, boundary: nat,
                       params: DeploymentParams)
    requires Linked(ns) && tip < |ns| && IsAncestor(ns, anchor, tip) && 0 < boundary <= ns[anchor].height + 1
    ensures NextState(ns, anchor, prior, before, boundary, params) == NextState(ns, tip, prior, before, boundary, params)
  {
    AtHeightOfAncestor(ns, tip, anchor, boundary - 1);
    CountOfAncestor(ns, tip, anchor, Max(before, 1), boundary, params);
  }

  /** A period's state is settled by the last block before it. */
  lemma {:induction false} StateOfAncestor(ns: seq<Node>, tip: nat, anchor: nat, k: nat, params: DeploymentParams)
    requires Linked(ns) && tip < |ns| && params.period > 0
    requires IsAncestor(ns, anchor, tip) && Boundary(k, params.period) <= ns[anchor].height + 1
    ensures StateOf(ns, anchor, k, params) == StateOf(ns, tip, k, params)
    decreases k
  {
    if k > 0 {
      StateOfAncestor(ns, tip, anchor, k - 1, params);
      NextOfAncestor(ns, tip, anchor, StateOf(ns, tip, k - 1, params),
                     Boundary(k - 1, params.period), Boundary(k, params.period), params);
    }
  }

  lemma AtHeightFrame(ns: seq<Node>, ns': seq<Node>, tip: nat, h: nat)
    requires Linked(ns) && Linked(ns') && SameLinks(ns, ns') && tip < |ns|
    ensures AtHeight(ns', tip, h) == AtHeight(ns, tip, h)
    ensures AtHeight(ns, tip, h).Some? ==> SameAt(ns, ns', AtHeight(ns, tip, h).value)
  {
    assert SameAt(ns, ns', tip);
    PathFrame(ns, ns', tip);
  }

  lemma {:induction false} CountFrame(ns: seq<Node>, ns': seq<Node>, tip: nat, lo: nat, hi: nat, params: DeploymentParams)
    requires Linked(ns) && Linked(ns') && SameLinks(ns, ns') && tip < |ns|
    ensures CountSignals(ns', tip, lo, hi, params) == CountSignals(ns, tip, lo, hi, params)
    decreases hi
  {
    if hi > lo {
      CountFrame(ns, ns', tip, lo, hi - 1, params);
      AtHeightFrame(ns, ns', tip, hi - 1);
    }
  }

  lemma NextFrame(ns: seq<Node>, ns': seq<Node>, tip: nat, prior: DeploymentState, before: nat, boundary: nat,
                  params: DeploymentParams)
    requires Linked(ns) && Linked(ns') && SameLinks(ns, ns') && tip < |ns| && boundary > 0
    ensures NextState(ns', tip, prior, before, boundary, params) == NextState(ns, tip, prior, before, boundary, params)
  {
    AtHeightFrame(ns, ns', tip, boundary - 1);
    var id := AtHeight(ns, tip, boundary - 1);
    if id.Some? { MedianFrame(ns, ns', id.value); }
    CountFrame(ns, ns', tip, Max(before, 1), boundary, params);
  }

  /** Neither growing the tree nor changing statuses alters the states of a chain in it. */
  lemma {:induction false} StateFrame(ns: seq<Node>, ns': seq<Node>, tip: nat, k: nat, params: DeploymentParams)
    requires Linked(ns) && Linked(ns') && SameLinks(ns, ns') && tip < |ns| && params.period > 0
    ensures StateOf(ns', tip, k, params) == StateOf(ns, tip, k, params)
    decreases k
  {
    if k > 0 {
      StateFrame(ns, ns', tip, k - 1, params);
      NextFrame(ns, ns', tip, StateOf(ns, tip, k - 1, params),
                Boundary(k - 1, params.period), Boundary(k, params.period), params);
    }
  }
}
