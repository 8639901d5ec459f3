/** Chains mined as fast as the clamp allows, for any retarget interval. */
module FastChains {
  import opened Wrappers
  import opened Bounded
  import opened Compact
  import opened Work
  import opened Chain
  import opened TreeModel
  import opened MedianTime
  import opened Admission
  import opened AdmissionLaws
  import opened DifficultyLaws
  import opened ChainRuns

  const TARGET: u256 := 0x8_0000_0000
  const QUARTER: u256 := 0x2_0000_0000
  const EIGHTH: u256 := 0x1_0000_0000

  /** What a block at the target, and one at an eighth of it, can add at most: 2^221 and 2^224. */
  const ROW_WORK: u256 := 0x20000000_0000000000000000_0000000000000000_0000000000000000
  const LAST_WORK: u256 := 0x1_00000000_0000000000000000_0000000000000000_0000000000000000

  /**
   A network that retargets and whose windows can pass in one second a block: the clamp's quarter of
   the timespan is at least that long.
   */
  predicate CanBeFast(rules: PowRules) {
    && rules.retargetInterval > 0 && !rules.allowMinDifficulty && !rules.noRetargeting
    && rules.TargetTimespan() > 0 && rules.retargetInterval - 1 <= rules.TargetTimespan() / 4
    && rules.maxTarget >= TARGET
  }

  // ---- Targets ----

  lemma FiveBytesAreExact(t: u256)
    requires 0x8000_0000 <= t < 0x80_0000_0000 && t % 0x1_0000 == 0
    ensures CompactToTarget(TargetToCompact(t)) == t && !CompactOverflows(TargetToCompact(t))
  {
    SmallPowers();
    Pow256Add(2, 2);
    Pow256Add(2, 3);
    ByteLenUnique(2 * t, 5);
    RoundTrip(t);
  }

  lemma FastBits() returns (bits: u32)
    ensures CompactToTarget(bits) == TARGET && !CompactOverflows(bits)
  {
    var t := TARGET;
    FiveBytesAreExact(t);
    bits := TargetToCompact(t);
  }

  /** The fastest window takes the target to less than a quarter, but not below an eighth. */
  lemma FastTarget(rules: PowRules, bits: u32)
    requires !QuarterIsExact(rules.TargetTimespan()) && rules.maxTarget >= TARGET && CompactToTarget(bits) == TARGET
    ensures var expected := rules.TargetTimespan();
            var next := RetargetBits(rules, bits, expected / 4, expected);
            EIGHTH <= CompactToTarget(next) < QUARTER && !CompactOverflows(next)
  {
    var expected := rules.TargetTimespan();
    var quarter := expected / 4;
    DivGreatest(EIGHTH, TARGET * quarter, expected);
    DivGreatest(QUARTER, TARGET * quarter, expected);
    RetargetIsExact(rules, bits, quarter, expected);
    var ideal := IdealTarget(rules, CompactToTarget(bits), quarter, expected);
    assert EIGHTH <= ideal < QUARTER;
    var eighth := EIGHTH;
    FiveBytesAreExact(eighth);
    RoundTrip(ideal);
    RoundTripMonotone(eighth, ideal);
  }

  lemma WorkAtMost(bits: u32, least: u256)
    requires 0 < least <= CompactToTarget(bits)
    ensures Work.BlockWork(bits) <= U256_LIMIT / least
  {
    BlockWorkIsExpectedHashes(bits);
    DivAntitone(U256_LIMIT, least, CompactToTarget(bits) + 1);
    DivGreatest(0, U256_LIMIT, least);
  }

  lemma RowWork(bits: u32)
    requires CompactToTarget(bits) == TARGET
    ensures Work.BlockWork(bits) <= ROW_WORK
  {
    WorkAtMost(bits, TARGET);
  }

  lemma LastWork(bits: u32)
    requires CompactToTarget(bits) >= EIGHTH
    ensures Work.BlockWork(bits) <= LAST_WORK
  {
    WorkAtMost(bits, EIGHTH);
  }

  // ---- A chain with one block a second ----

  /** The `i`-th header; its hash is `i + 1`, small enough for every target used here. */
  function Timed(i: u32, bits: u32): Header { Header(4, i, i, bits, i + 1) }

  function FastNetwork(rules: PowRules): Network { Network(rules, 1, U32_MAX, U32_MAX, U32_MAX) }

  predicate InRow(ns: seq<Node>, i: nat, bits: u32)
    requires i < |ns|
  {
    && i <= U32_MAX && ns[i].header == Timed(i, bits) && ns[i].hash == i + 1 && ns[i].height == i
    && ns[i].parent == (if i == 0 then None else Some(i - 1))
    && !ns[i].status.Invalid? && ns[i].chainwork <= (i + 1) * ROW_WORK
  }

  /** The tree is a single row of the first `k` such headers. */
  ghost predicate IsRow(t: Tree, k: nat, bits: u32) {
    Core(t) && |t.nodes| == k && forall i: nat :: i < k ==> InRow(t.nodes, i, bits)
  }

  lemma {:induction false} RowTimes(t: Tree, k: nat, bits: u32, i: nat, n: nat, x: u32)
    requires IsRow(t, k, bits) && i < k && x in Times(t.nodes, i, n)
    ensures x <= i
    decreases i
  {
    assert InRow(t.nodes, i, bits) && NodeOk(t.nodes, i);
    if n > 0 && i > 0 && x != t.nodes[i].header.time {
      RowTimes(t, k, bits, i - 1, n - 1, x);
    }
  }

  lemma RowMedian(t: Tree, k: nat, bits: u32, i: nat)
    requires IsRow(t, k, bits) && i < k
    ensures MedianTimePast(t.nodes, i) <= i
  {
    var times := Times(t.nodes, i, WINDOW);
    MedianByRank(times);
    RowTimes(t, k, bits, i, WINDOW, Median(times));
  }

  lemma RowLookup(t: Tree, k: nat, bits: u32, hash: Hash)
    requires IsRow(t, k, bits) && hash <= k + 1
    ensures Lookup(t.nodes, hash) == if 0 < hash <= k then Some(hash - 1) else None
  {
    if 0 < hash <= k {
      assert InRow(t.nodes, hash - 1, bits);
      LookupIs(t.nodes, hash - 1);
    } else {
      forall i: nat | i < |t.nodes| ensures t.nodes[i].hash != hash {
        assert InRow(t.nodes, i, bits);
      }
    }
  }

  /** A placed header continues the row. */
  lemma RowContinues(t: Tree, t': Tree, k: nat, bits: u32)
    requires IsRow(t, k, bits) && k <= U32_MAX && CompactToTarget(bits) == TARGET
    requires Core(t') && SameLinks(t.nodes, t'.nodes) && IsPlaced(t, t', Timed(k, bits))
    requires !t'.nodes[k].status.Invalid?
    requires forall i: nat :: i < k ==> (t.nodes[i].status.Invalid? <==> t'.nodes[i].status.Invalid?)
    ensures IsRow(t', k + 1, bits)
  {
    RowLookup(t, k, bits, k);
    RowWork(bits);
    assert NodeOk(t'.nodes, k);
    if k > 0 { assert InRow(t.nodes, k - 1, bits) && SameAt(t.nodes, t'.nodes, k - 1); }
    assert InRow(t'.nodes, k, bits);
    forall i: nat | i < k + 1 ensures InRow(t'.nodes, i, bits) {
      if i < k { assert InRow(t.nodes, i, bits) && SameAt(t.nodes, t'.nodes, i); }
    }
  }

  /** A new node is valid and the earlier ones keep their validity. */
  lemma AddedIsValid(t: Tree, header: Header, net: Network, now: u32, mode: Mode)
    requires Core(t) && Added(t, header, net, now, mode)
    ensures var t' := AcceptOne(t, header, net, now, mode).tree;
            && Core(t') && SameLinks(t.nodes, t'.nodes) && IsPlaced(t, t', header)
            && !t'.nodes[|t.nodes|].status.Invalid?
            && forall i: nat :: i < |t.nodes| ==> (t.nodes[i].status.Invalid? <==> t'.nodes[i].status.Invalid?)
  {
    AcceptOneKeeps(t, header, net, now, mode);
    InsertKeepsInv(t, HeaderParent(t.nodes, header).value, header, header.hash, HeaderValid);
  }

  lemma NotABoundary(k: nat, interval: nat)
    requires 0 < k < interval
    ensures k % interval != 0
  {
    DivUnique(k, interval, 0, k);
  }

  /** Inside the first window the parent's bits are required. */
  lemma RowBits(t: Tree, k: nat, bits: u32, rules: PowRules)
    requires IsRow(t, k, bits) && CanBeFast(rules) && 0 < k < rules.retargetInterval
    ensures NextBits(t.nodes, k - 1, k, rules) == bits
  {
    assert InRow(t.nodes, k - 1, bits);
    NotABoundary(k, rules.retargetInterval);
  }

  lemma RowIsAdmitted(t: Tree, k: nat, bits: u32, net: Network)
    requires IsRow(t, k, bits) && net == FastNetwork(net.pow) && CanBeFast(net.pow) && k < net.pow.retargetInterval
    requires CompactToTarget(bits) == TARGET && !CompactOverflows(bits)
    ensures Added(t, Timed(k, bits), net, 0, HistoricalReplay)
  {
    var header := Timed(k, bits);
    RowLookup(t, k, bits, k + 1);
    RowLookup(t, k, bits, k);
    if k > 0 {
      assert InRow(t.nodes, k - 1, bits);
      RowBits(t, k, bits, net.pow);
      RowMedian(t, k, bits, k - 1);
      RowWork(bits);
    }
    AdmittedIff(t, header, net, 0, HistoricalReplay);
  }

  // ---- The first retarget ----

  /** At the end of the first window the fastest retarget is required. */
  lemma LastBits(t: Tree, k: nat, bits: u32, rules: PowRules)
    requires IsRow(t, k, bits) && CanBeFast(rules) && k == rules.retargetInterval
    ensures var expected := rules.TargetTimespan();
            NextBits(t.nodes, k - 1, k, rules) == RetargetBits(rules, bits, expected / 4, expected)
  {
    var expected := rules.TargetTimespan();
    assert InRow(t.nodes, k - 1, bits) && InRow(t.nodes, 0, bits);
    DivUnique(k, k, 1, 0);
    PathPrefix(t.nodes, k - 1, 0);
    var a := AncestorAt(t.nodes, k - 1, 0);
    assert InRow(t.nodes, a, bits);
  }

  lemma LastIsAdmitted(t: Tree, k: nat, bits: u32, next: u32, net: Network)
    requires IsRow(t, k, bits) && net == FastNetwork(net.pow) && CanBeFast(net.pow) && k == net.pow.retargetInterval
    requires CompactToTarget(bits) == TARGET && !QuarterIsExact(net.pow.TargetTimespan())
    requires next == RetargetBits(net.pow, bits, net.pow.TargetTimespan() / 4, net.pow.TargetTimespan())
    ensures Added(t, Timed(k, next), net, 0, HistoricalReplay)
  {
    var header := Timed(k, next);
    FastTarget(net.pow, bits);
    RowLookup(t, k, bits, k + 1);
    RowLookup(t, k, bits, k);
    assert InRow(t.nodes, k - 1, bits);
    LastBits(t, k, bits, net.pow);
    RowMedian(t, k, bits, k - 1);
    LastWork(next);
    AdmittedIff(t, header, net, 0, HistoricalReplay);
  }

  lemma NextIsRefused(rules: PowRules, bits: u32, next: u32)
    requires CanBeFast(rules) && CompactToTarget(bits) == TARGET && CompactToTarget(next) < QUARTER
    ensures !PermittedDifficultyTransition(rules, rules.retargetInterval, bits, next)
  {
    var quarter := QUARTER;
    FiveBytesAreExact(quarter);
    DivUnique(rules.retargetInterval, rules.retargetInterval, 1, 0);
    BelowTheQuarterIsRefused(rules, rules.retargetInterval, bits, next, quarter);
  }

  lemma LastIsNotPermitted(t: Tree, t': Tree, k: nat, bits: u32, next: u32, rules: PowRules)
    requires IsRow(t, k, bits) && k == rules.retargetInterval && k > 0
    requires Core(t') && SameLinks(t.nodes, t'.nodes) && IsPlaced(t, t', Timed(k, next))
    requires !PermittedDifficultyTransition(rules, rules.retargetInterval, bits, next)
    ensures !TransitionsPermitted(t'.nodes, rules)
  {
    RowLookup(t, k, bits, k);
    assert InRow(t.nodes, k - 1, bits) && SameAt(t.nodes, t'.nodes, k - 1) && NodeOk(t'.nodes, k);
    assert !TransitionPermittedAt(t'.nodes, rules, k);
  }

  // ---- The run ----

  function Row(k: nat, bits: u32): (row: seq<Header>)
    requires k <= U32_MAX
    ensures |row| == k
  {
    if k == 0 then [] else Row(k - 1, bits) + [Timed(k - 1, bits)]
  }

  lemma AcceptMore(headers: seq<Header>, header: Header, net: Network)
    requires AcceptAll(EMPTY, headers, net, 0, HistoricalReplay).error.None?
    requires Added(AcceptAll(EMPTY, headers, net, 0, HistoricalReplay).tree, header, net, 0, HistoricalReplay)
    ensures var before := AcceptAll(EMPTY, headers, net, 0, HistoricalReplay);
            var after := AcceptAll(EMPTY, headers + [header], net, 0, HistoricalReplay);
            after.error.None? && after.tree == AcceptOne(before.tree, header, net, 0, HistoricalReplay).tree
  {
    assert (headers + [header])[..|headers|] == headers;
  }

  lemma {:induction false} RowGrows(k: nat, bits: u32, net: Network)
    requires net == FastNetwork(net.pow) && CanBeFast(net.pow) && k <= net.pow.retargetInterval
    requires CompactToTarget(bits) == TARGET && !CompactOverflows(bits)
    ensures var b := AcceptAll(EMPTY, Row(k, bits), net, 0, HistoricalReplay);
            b.error.None? && IsRow(b.tree, k, bits)
    decreases k
  {
    if k > 0 {
      RowGrows(k - 1, bits, net);
      var t := AcceptAll(EMPTY, Row(k - 1, bits), net, 0, HistoricalReplay).tree;
      RowIsAdmitted(t, k - 1, bits, net);
      AddedIsValid(t, Timed(k - 1, bits), net, 0, HistoricalReplay);
      RowContinues(t, AcceptOne(t, Timed(k - 1, bits), net, 0, HistoricalReplay).tree, k - 1, bits);
      AcceptMore(Row(k - 1, bits), Timed(k - 1, bits), net);
    }
  }

  lemma GrowOnce(net: Network, headers: seq<Header>)
    ensures Grow(net, [Accept(headers, 0, HistoricalReplay)])
         == AcceptAll(EMPTY, headers, net, 0, HistoricalReplay).tree
  {
    var events := [Accept(headers, 0, HistoricalReplay)];
    assert events[..0] == [];
    assert Grow(net, events[..0]) == EMPTY;
  }

  ghost predicate RunPermitted(net: Network, events: seq<Event>) {
    TransitionsPermitted(Grow(net, events).nodes, net.pow)
  }

  lemma FastRunIsRefused(net: Network, bits: u32, next: u32, headers: seq<Header>)
    requires net == FastNetwork(net.pow) && CanBeFast(net.pow) && !QuarterIsExact(net.pow.TargetTimespan())
    requires CompactToTarget(bits) == TARGET && !CompactOverflows(bits)
    requires next == RetargetBits(net.pow, bits, net.pow.TargetTimespan() / 4, net.pow.TargetTimespan())
    requires headers == Row(net.pow.retargetInterval, bits) + [Timed(net.pow.retargetInterval, next)]
    ensures !TransitionsPermitted(AcceptAll(EMPTY, headers, net, 0, HistoricalReplay).tree.nodes, net.pow)
  {
    var n := net.pow.retargetInterval;
    RowGrows(n, bits, net);
    var t := AcceptAll(EMPTY, Row(n, bits), net, 0, HistoricalReplay).tree;
    LastIsAdmitted(t, n, bits, next, net);
    AddedIsValid(t, Timed(n, next), net, 0, HistoricalReplay);
    FastTarget(net.pow, bits);
    NextIsRefused(net.pow, bits, next);
    LastIsNotPermitted(t, AcceptOne(t, Timed(n, next), net, 0, HistoricalReplay).tree, n, bits, next, net.pow);
    AcceptMore(Row(n, bits), Timed(n, next), net);
  }

  lemma SomeRunIsRefused(rules: PowRules) returns (net: Network, events: seq<Event>)
    requires CanBeFast(rules) && !QuarterIsExact(rules.TargetTimespan())
    ensures net.pow == rules && !RunPermitted(net, events)
  {
    var bits := FastBits();
    var next := RetargetBits(rules, bits, rules.TargetTimespan() / 4, rules.TargetTimespan());
    var headers := Row(rules.retargetInterval, bits) + [Timed(rules.retargetInterval, next)];
    net, events := FastNetwork(rules), [Accept(headers, 0, HistoricalReplay)];
    FastRunIsRefused(net, bits, next, headers);
    GrowOnce(net, headers);
  }

  /**
   On every network whose windows can pass in one second a block, all runs are permitted exactly when
   the timespan is divisible by four or below four.
   */
  lemma RunsPermittedIff(rules: PowRules)
    requires CanBeFast(rules)
    ensures (forall net: Network, events: seq<Event> :: net.pow == rules ==> RunPermitted(net, events))
            <==> QuarterIsExact(rules.TargetTimespan())
  {
    if QuarterIsExact(rules.TargetTimespan()) {
      forall net: Network, events: seq<Event> | net.pow == rules ensures RunPermitted(net, events) {
        EveryRunIsPermitted(net, events);
      }
    } else {
      var net, events := SomeRunIsRefused(rules);
    }
  }
}
