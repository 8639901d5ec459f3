/** Cached BIP 9 queries over the block tree (deployment.rs, and the cache of tree.rs). */
module Deployments {
  import opened Wrappers
  import opened Bounded
  import opened Chain
  import opened TreeModel
  import opened VersionBits
  import opened BlockTrees

  type Cache = map<(nat, nat), nat>
  type Rules = map<nat, DeploymentParams>

  /** The state at a height of the tip's chain, without any cache. */
  function ComputeState(ns: seq<Node>, tip: nat, height: u32, params: DeploymentParams): DeploymentState
    requires Linked(ns) && tip < |ns| && params.period > 0
  {
    StateOf(ns, tip, height / params.period, params)
  }

  // ---- The cache ----

  /** The last block before the period of a height, if that period has one. */
  function AnchorOf(ns: seq<Node>, tip: nat, height: u32, params: DeploymentParams): (anchor: Option<nat>)
    requires Linked(ns) && tip < |ns| && params.period > 0
    ensures anchor.Some? ==> anchor.value < |ns|
  {
    var start := Boundary(height / params.period, params.period);
    if start == 0 then None else AtHeight(ns, tip, start - 1)
  }

  function CachedTag(cache: Cache, anchor: Option<nat>, id: nat): Option<DeploymentState> {
    if anchor.Some? && (anchor.value, id) in cache
    then DeploymentState.FromCacheTag(cache[(anchor.value, id)]) else None
  }

  /** What a query answers: the cached state when there is one. */
  function Answer(ns: seq<Node>, cache: Cache, tip: nat, height: u32, id: nat, params: DeploymentParams): DeploymentState
    requires Linked(ns) && tip < |ns| && params.period > 0
  {
    var hit := CachedTag(cache, AnchorOf(ns, tip, height, params), id);
    if hit.Some? then hit.value else ComputeState(ns, tip, height, params)
  }

  /** The cache after a query: a miss with an anchor is stored. */
  function CacheAfter(ns: seq<Node>, cache: Cache, tip: nat, height: u32, id: nat, params: DeploymentParams): Cache
    requires Linked(ns) && tip < |ns| && params.period > 0
  {
    var anchor := AnchorOf(ns, tip, height, params);
    if anchor.None? || CachedTag(cache, anchor, id).Some? then cache
    else cache[(anchor.value, id) := ComputeState(ns, tip, height, params).CacheTag()]
  }

  /** The state of the period that starts right after a node, which ends a period itself. */
  ghost predicate StateAfter(ns: seq<Node>, node: nat, params: DeploymentParams, state: DeploymentState)
    requires Linked(ns) && node < |ns| && params.period > 0
  {
    exists k: nat :: Boundary(k, params.period) == ns[node].height + 1 && state == StateOf(ns, node, k, params)
  }

  ghost predicate EntrySound(ns: seq<Node>, cache: Cache, rules: Rules, key: (nat, nat))
    requires Linked(ns) && key in cache
  {
    && key.0 < |ns| && key.1 in rules && rules[key.1].period > 0
    && var state := DeploymentState.FromCacheTag(cache[key]);
       state.Some? && StateAfter(ns, key.0, rules[key.1], state.value)
  }

  ghost predicate CacheSound(ns: seq<Node>, cache: Cache, rules: Rules)
    requires Linked(ns)
  {
    forall key :: key in cache ==> EntrySound(ns, cache, rules, key)
  }

  /** A period's state, seen from any chain through its anchor, is the state after the anchor. */
  lemma AnchorSettles(ns: seq<Node>, tip: nat, height: u32, params: DeploymentParams, state: DeploymentState)
    requires Linked(ns) && tip < |ns| && params.period > 0
    requires AnchorOf(ns, tip, height, params).Some?
    ensures StateAfter(ns, AnchorOf(ns, tip, height, params).value, params, state)
            <==> state == ComputeState(ns, tip, height, params)
  {
    var k := height / params.period;
    var start := Boundary(k, params.period);
    PathPrefix(ns, tip, start - 1);
    var anchor := AnchorOf(ns, tip, height, params).value;
    StateOfAncestor(ns, tip, anchor, k, params);
    if StateAfter(ns, anchor, params, state) {
      var j: nat :| Boundary(j, params.period) == start && state == StateOf(ns, anchor, j, params);
      BoundaryInjective(j, k, params.period);
    }
  }

  lemma {:induction false} BoundaryInjective(j: nat, k: nat, period: nat)
    requires period > 0 && Boundary(j, period) == Boundary(k, period)
    ensures j == k
  {
    if j > 0 && k > 0 { BoundaryInjective(j - 1, k - 1, period); }
  }

  /** With a sound cache every query answers the uncached state, and leaves the cache sound. */
  lemma CachedIsUncached(ns: seq<Node>, cache: Cache, rules: Rules, tip: nat, height: u32, id: nat)
    requires Linked(ns) && CacheSound(ns, cache, rules) && tip < |ns| && id in rules && rules[id].period > 0
    ensures Answer(ns, cache, tip, height, id, rules[id]) == ComputeState(ns, tip, height, rules[id])
    ensures CacheSound(ns, CacheAfter(ns, cache, tip, height, id, rules[id]), rules)
  {
    var params := rules[id];
    var anchor := AnchorOf(ns, tip, height, params);
    if anchor.Some? {
      var state, cache' := ComputeState(ns, tip, height, params), CacheAfter(ns, cache, tip, height, id, params);
      AnchorSettles(ns, tip, height, params, state);
      RankIdentifies(state, state);
      if (anchor.value, id) in cache {
        assert EntrySound(ns, cache, rules, (anchor.value, id));
        AnchorSettles(ns, tip, height, params, CachedTag(cache, anchor, id).value);
      }
      forall key | key in cache'
        ensures EntrySound(ns, cache', rules, key)
      {
        if key != (anchor.value, id) { assert EntrySound(ns, cache, rules, key); }
      }
    }
  }

  /** Growing the tree, changing statuses and dropping entries all keep the cache sound. */
  lemma CacheSurvives(ns: seq<Node>, ns': seq<Node>, cache: Cache, cache': Cache, rules: Rules)
    requires Linked(ns) && Linked(ns') && SameLinks(ns, ns') && CacheSound(ns, cache, rules)
    requires forall key :: key in cache' ==> key in cache && cache'[key] == cache[key]
    ensures CacheSound(ns', cache', rules)
  {
    forall key | key in cache'
      ensures EntrySound(ns', cache', rules, key)
    {
      assert EntrySound(ns, cache, rules, key);
      StateAfterFrame(ns, ns', key.0, rules[key.1], DeploymentState.FromCacheTag(cache[key]).value);
    }
  }

  lemma StateAfterFrame(ns: seq<Node>, ns': seq<Node>, node: nat, params: DeploymentParams, state: DeploymentState)
    requires Linked(ns) && Linked(ns') && SameLinks(ns, ns') && node < |ns| && params.period > 0
    requires StateAfter(ns, node, params, state)
    ensures StateAfter(ns', node, params, state)
  {
    assert SameAt(ns, ns', node);
    var k: nat :| Boundary(k, params.period) == ns[node].height + 1 && state == StateOf(ns, node, k, params);
    StateFrame(ns, ns', node, k, params);
  }

  // ---- Runs of changes and queries ----

  datatype Event = Changed(change: Change) | Queried(tip: nat, height: u32, id: nat)

  datatype CachedTree = CachedTree(tree: Tree, cache: Cache)

  ghost function React(s: CachedTree, rules: Rules, event: Event): CachedTree
    requires Inv(s.tree)
  {
    match event
    case Changed(change) =>
      CachedTree(Apply(s.tree, change),
            if change.InvalidateSubtree? && change.root < |s.tree.nodes|
            then Uncache(s.cache, s.tree.nodes, change.root) else s.cache)
    case Queried(tip, height, id) =>
      if tip < |s.tree.nodes| && id in rules && rules[id].period > 0
      then s.(cache := CacheAfter(s.tree.nodes, s.cache, tip, height, id, rules[id])) else s
  }

  lemma ReactKeepsSound(s: CachedTree, rules: Rules, event: Event)
    requires Inv(s.tree) && CacheSound(s.tree.nodes, s.cache, rules)
    ensures var s' := React(s, rules, event); Inv(s'.tree) && CacheSound(s'.tree.nodes, s'.cache, rules)
  {
    match event
    case Changed(change) =>
      ApplyKeepsInv(s.tree, change);
      var s' := React(s, rules, event);
      CacheSurvives(s.tree.nodes, s'.tree.nodes, s.cache, s'.cache, rules);
    case Queried(tip, height, id) =>
      if tip < |s.tree.nodes| && id in rules && rules[id].period > 0 {
        CachedIsUncached(s.tree.nodes, s.cache, rules, tip, height, id);
      }
  }

  /** The tree and cache after any interleaving of changes and queries. */
  ghost function RunAll(events: seq<Event>, rules: Rules): (s: CachedTree)
    ensures Inv(s.tree) && CacheSound(s.tree.nodes, s.cache, rules)
  {
    if events == [] then CachedTree(EMPTY, map[])
    else
      var before := RunAll(events[..|events| - 1], rules);
      ReactKeepsSound(before, rules, events[|events| - 1]);
      React(before, rules, events[|events| - 1])
  }

  /** After every run, every query answers the uncached state. */
  lemma EveryRunAnswersUncached(events: seq<Event>, rules: Rules, tip: nat, height: u32, id: nat)
    requires tip < |RunAll(events, rules).tree.nodes| && id in rules && rules[id].period > 0
    ensures var s := RunAll(events, rules);
            Answer(s.tree.nodes, s.cache, tip, height, id, rules[id]) == ComputeState(s.tree.nodes, tip, height, rules[id])
  {
    var s := RunAll(events, rules);
    CachedIsUncached(s.tree.nodes, s.cache, rules, tip, height, id);
  }

  // ---- Views ----

  /** A chain to query: its tip, and its ancestry newest first when it is a side branch. */
  datatype View = View(tipId: nat, ancestry: Option<seq<nat>>)

  ghost predicate ViewOk(ns: seq<Node>, view: View)
    requires Linked(ns)
  {
    && view.tipId < |ns|
    && (view.ancestry.Some? ==>
          && |view.ancestry.value| == ns[view.tipId].height + 1
          && forall j :: 0 <= j < |view.ancestry.value| ==>
               view.ancestry.value[j] == AncestorAt(ns, view.tipId, ns[view.tipId].height - j))
  }

  datatype QueryError = ChainFailure(error: ChainError) | Budget(limit: nat)

  /** A view by index for the active chain, and by collected ancestry within a budget otherwise. */
  method ForQuery(tree: BlockTree, tipId: nat, budget: nat) returns (r: Result<View, QueryError>)
    requires tree.Valid()
    ensures tipId >= |tree.nodes| ==> r == Err(ChainFailure(UnknownNode(tipId)))
    ensures tipId < |tree.nodes| ==>
              var active := tree.tip.Some? && IsAncestor(tree.nodes, tipId, tree.tip.value.tipId);
              if !active && tree.nodes[tipId].height + 1 > budget then r == Err(Budget(budget))
              else r.Ok? && ViewOk(tree.nodes, r.value) && r.value.tipId == tipId
                   && (r.value.ancestry.None? <==> active)
  {
    if tipId >= |tree.nodes| {
      return Err(ChainFailure(UnknownNode(tipId)));
    }
    if tree.tip.Some? {
      var at := tree.NodeAtHeightFrom(tree.tip.value.tipId, tree.nodes[tipId].height);
      if at.Some? {
        DistinctHashes(tree.nodes, at.value, tipId);
        if tree.nodes[at.value].hash == tree.nodes[tipId].hash {
          return Ok(View(tipId, None));
        }
      }
    }
    if tree.nodes[tipId].height + 1 > budget {
      return Err(Budget(budget));
    }
    var chain := tree.AncestorChain(tipId);
    ghost var path := Path(tree.nodes, tipId);
    forall j | 0 <= j < |chain.value|
      ensures chain.value[j] == path[|path| - 1 - j]
    {
      ReverseAt(chain.value, |path| - 1 - j);
    }
    r := Ok(View(tipId, Some(chain.value)));
  }

  /** Looks a height up in the view: the same node whichever way the view stores its chain. */
  method NodeAtHeight(tree: BlockTree, view: View, height: nat) returns (id: Option<nat>)
    requires tree.Structure() && ViewOk(tree.nodes, view)
    ensures id == AtHeight(tree.nodes, view.tipId, height)
  {
    if view.ancestry.Some? {
      var ancestry := view.ancestry.value;
      id := if height + 1 <= |ancestry| then Some(ancestry[|ancestry| - (height + 1)]) else None;
    } else if height <= U32_MAX {
      id := tree.NodeAtHeightFrom(view.tipId, height);
    } else {
      id := None;
    }
  }

  method CountSignalling(tree: BlockTree, view: View, lo: nat, hi: nat, params: DeploymentParams) returns (count: nat)
    requires tree.Structure() && ViewOk(tree.nodes, view)
    ensures count == CountSignals(tree.nodes, view.tipId, lo, hi, params)
  {
    count := 0;
    var h := lo;
    while h < hi
      invariant lo <= h && (h <= hi || h == lo)
      invariant count == CountSignals(tree.nodes, view.tipId, lo, h, params)
    {
      var id := NodeAtHeight(tree, view, h);
      if id.Some? && params.Signals(tree.nodes[id.value].header.version) {
        count := count + 1;
      }
      h := h + 1;
    }
  }

  method ComputeNextState(tree: BlockTree, view: View, prior: DeploymentState, before: nat, boundary: nat,
                          params: DeploymentParams)
    returns (state: DeploymentState)
    requires tree.Structure() && ViewOk(tree.nodes, view) && boundary > 0
    ensures state == NextState(tree.nodes, view.tipId, prior, before, boundary, params)
  {
    var id := NodeAtHeight(tree, view, boundary - 1);
    var median: Option<u32> := None;
    if id.Some? {
      median := tree.MedianTimePastAt(id.value);
    }
    var count := CountSignalling(tree, view, Max(before, 1), boundary, params);
    state := Transition(prior, median, count, params);
  }

  /** The state of a period, computed from the periods before it. */
  method ComputeStateAt(tree: BlockTree, view: View, k: nat, params: DeploymentParams) returns (state: DeploymentState)
    requires tree.Structure() && ViewOk(tree.nodes, view) && params.period > 0
    ensures state == StateOf(tree.nodes, view.tipId, k, params)
    decreases k
  {
    if k == 0 {
      return Defined;
    }
    var prior := ComputeStateAt(tree, view, k - 1, params);
    state := ComputeNextState(tree, view, prior, Boundary(k - 1, params.period), Boundary(k, params.period), params);
  }

  method FindAnchor(tree: BlockTree, view: View, height: u32, params: DeploymentParams) returns (anchor: Option<nat>)
    requires tree.Structure() && ViewOk(tree.nodes, view) && params.period > 0
    ensures anchor == AnchorOf(tree.nodes, view.tipId, height, params)
  {
    var start := Boundary(height / params.period, params.period);
    if start == 0 {
      return None;
    }
    anchor := NodeAtHeight(tree, view, start - 1);
  }

  /** Answers from the cache, or computes the state and caches it under its anchor. */
  method CachedDeploymentState(tree: BlockTree, view: View, height: u32, id: nat, params: DeploymentParams)
    returns (state: DeploymentState)
    requires tree.Valid() && ViewOk(tree.nodes, view) && params.period > 0
    modifies tree`bip9
    ensures state == Answer(tree.nodes, old(tree.bip9), view.tipId, height, id, params)
    ensures tree.bip9 == CacheAfter(tree.nodes, old(tree.bip9), view.tipId, height, id, params)
    ensures tree.Valid()
  {
    var anchor := FindAnchor(tree, view, height, params);
    var hit := CachedTag(tree.bip9, anchor, id);
    if hit.Some? {
      return hit.value;
    }
    state := ComputeStateAt(tree, view, height / params.period, params);
    if anchor.Some? {
      tree.CacheBip9State(anchor.value, id, state.CacheTag());
    }
  }

  /** A query against a sound cache: the uncached state, with the cache left sound. */
  method QueryState(tree: BlockTree, view: View, height: u32, id: nat, params: DeploymentParams, ghost rules: Rules)
    returns (state: DeploymentState)
    requires tree.Valid() && ViewOk(tree.nodes, view) && params.period > 0
    requires CacheSound(tree.nodes, tree.bip9, rules) && id in rules && rules[id] == params
    modifies tree`bip9
    ensures state == ComputeState(tree.nodes, view.tipId, height, params)
    ensures tree.Valid() && CacheSound(tree.nodes, tree.bip9, rules)
  {
    CachedIsUncached(tree.nodes, tree.bip9, rules, view.tipId, height, id);
    state := CachedDeploymentState(tree, view, height, id, params);
  }

  /** The first period of the run of equal states that reaches the period of a height. */
  ghost function SincePeriod(ns: seq<Node>, tip: nat, height: u32, params: DeploymentParams): nat
    requires Linked(ns) && tip < |ns| && params.period > 0
  {
    var top: nat := height / params.period;
    Since(History(ns, tip, top, params), top)
  }

  /** Binary search for the first period of the current run of a state. */
  method FindSince(tree: BlockTree, view: View, height: u32, state: DeploymentState, id: nat, params: DeploymentParams,
                   ghost rules: Rules)
    returns (low: nat)
    requires tree.Valid() && ViewOk(tree.nodes, view) && params.period > 0
    requires CacheSound(tree.nodes, tree.bip9, rules) && id in rules && rules[id] == params
    requires state == ComputeState(tree.nodes, view.tipId, height, params)
    modifies tree`bip9
    ensures tree.Valid() && CacheSound(tree.nodes, tree.bip9, rules)
    ensures low == SincePeriod(tree.nodes, view.tipId, height, params)
  {
    var high: nat := height / params.period;
    low := 0;
    ghost var top := high;
    ghost var history := History(tree.nodes, view.tipId, top, params);
    HistoryNeverReturns(tree.nodes, view.tipId, top, params);
    while low < high
      invariant low <= Since(history, top) <= high <= top
      invariant tree.Valid() && CacheSound(tree.nodes, tree.bip9, rules)
    {
      var mid := low + (high - low) / 2;
      PeriodStart(mid, params.period, height);
      var there := QueryState(tree, view, mid * params.period, id, params, rules);
      SinceSeparates(history, mid, top);
      if there == state {
        high := mid;
      } else {
        low := mid + 1;
      }
    }
  }

  /** The state at a block, the state of the next block, and the height its state began at. */
  method DeploymentStatus(tree: BlockTree, view: View, height: u32, id: nat, params: DeploymentParams, ghost rules: Rules)
    returns (state: DeploymentState, next: DeploymentState, since: nat)
    requires tree.Valid() && ViewOk(tree.nodes, view) && params.period > 0
    requires CacheSound(tree.nodes, tree.bip9, rules) && id in rules && rules[id] == params
    modifies tree`bip9
    ensures tree.Valid() && CacheSound(tree.nodes, tree.bip9, rules)
    ensures state == ComputeState(tree.nodes, view.tipId, height, params)
    ensures next == ComputeState(tree.nodes, view.tipId, SaturatingAdd32(height, 1), params)
    ensures since == Boundary(SincePeriod(tree.nodes, view.tipId, height, params), params.period)
  {
    state := QueryState(tree, view, height, id, params, rules);
    next := QueryState(tree, view, SaturatingAdd32(height, 1), id, params, rules);
    var low := FindSince(tree, view, height, state, id, params, rules);
    BoundaryIsProduct(low, params.period);
    MulMonotone(0, low, params.period);
    since := low * params.period;
  }

  lemma PeriodStart(mid: nat, period: nat, height: nat)
    requires period > 0 && mid <= height / period
    ensures 0 <= mid * period <= height && (mid * period) / period == mid
  {
    DivGreatest(mid, height, period);
    MulDiv(mid, period);
    MulMonotone(0, mid, period);
  }
}
