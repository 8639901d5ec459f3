/** Laws of header admission that hold for whole batches and whole chains. */
module AdmissionLaws {
  import opened Wrappers
  import opened Bounded
  import opened Compact
  import opened Work
  import opened Chain
  import opened TreeModel
  import opened MedianTime
  import opened Admission

  // ---- Difficulty transitions ----

  predicate TransitionPermittedAt(ns: seq<Node>, rules: PowRules, i: nat)
    requires Linked(ns) && i < |ns|
  {
    Parent(ns, i).Some? ==>
      PermittedDifficultyTransition(rules, ns[i].height, ns[Parent(ns, i).value].header.bits, ns[i].header.bits)
  }

  ghost predicate TransitionsPermitted(ns: seq<Node>, rules: PowRules)
    requires Linked(ns)
  {
    forall i: nat :: i < |ns| ==> TransitionPermittedAt(ns, rules, i)
  }

  lemma ClampedTimespanBounds(anchor: u32, prev: u32, expected: u32)
    ensures expected / 4 <= ClampedTimespan(anchor, prev, expected) <= 4 * expected
  {
  }

  lemma NoBoundaryInside(height: nat, interval: nat, k: nat)
    requires 0 < interval <= height && height % interval == 0 && height - interval < k < height
    ensures k % interval != 0
  {
    var r := k - (height - interval);
    assert height == (height / interval) * interval;
    assert k == (height / interval - 1) * interval + r;
    DivUnique(k, interval, height / interval - 1, r);
  }

  /** Without minimum-difficulty blocks, bits stay the same until the next retarget height. */
  lemma {:induction false} WindowKeepsBits(ns: seq<Node>, i: nat, h: nat, rules: PowRules)
    requires Linked(ns) && i < |ns| && h <= ns[i].height && TransitionsPermitted(ns, rules) && !rules.allowMinDifficulty
    requires forall k: nat :: h < k <= ns[i].height ==> !rules.RetargetsAt(k)
    ensures ns[AncestorAt(ns, i, h)].header.bits == ns[i].header.bits
    decreases i
  {
    if h < ns[i].height {
      assert NodeOk(ns, i) && TransitionPermittedAt(ns, rules, i) && !rules.RetargetsAt(ns[i].height);
      var p := Parent(ns, i).value;
      WindowKeepsBits(ns, p, h, rules);
      AncestorOfParent(ns, p, i);
      AncestorOfParent(ns, p, p);
      AncestorStep(ns, i, p, h);
    } else {
      AncestorOfParent(ns, i, i);
    }
  }

  /** At a retarget height the window's first bits, which BIP 94 scales, are the parent's. */
  lemma WindowStartsWithSameBits(ns: seq<Node>, parent: nat, rules: PowRules)
    requires Linked(ns) && parent < |ns| && TransitionsPermitted(ns, rules) && !rules.allowMinDifficulty
    requires rules.RetargetsAt(ns[parent].height + 1) && rules.retargetInterval <= ns[parent].height + 1
    ensures ns[AncestorAt(ns, parent, ns[parent].height + 1 - rules.retargetInterval)].header.bits
         == ns[parent].header.bits
  {
    var height := ns[parent].height + 1;
    forall k: nat | height - rules.retargetInterval < k <= ns[parent].height ensures !rules.RetargetsAt(k) {
      NoBoundaryInside(height, rules.retargetInterval, k);
    }
    WindowKeepsBits(ns, parent, height - rules.retargetInterval, rules);
  }

  /** A window of no length leads to the zero target, which cannot be mined. */
  lemma EmptySpanGivesZero(rules: PowRules, bits: u32, actual: u32, expected: u32)
    requires expected != 0 && actual == 0
    ensures CompactToTarget(RetargetBits(rules, bits, actual, expected)) == 0
  {
    var ideal := IdealTarget(rules, CompactToTarget(bits), actual, expected);
    RetargetIsExact(rules, bits, actual, expected);
    DivUnique(0, expected, 0, 0);
    RoundTrip(ideal);
  }

  /** Scaling the parent's bits by a clamped window gives a permitted transition, if it can be mined at all. */
  lemma ClampedIsPermitted(rules: PowRules, height: u32, bits: u32, from: u32, to: u32)
    requires rules.RetargetsAt(height) && rules.TargetTimespan() > 0 && QuarterIsExact(rules.TargetTimespan())
    requires var expected := rules.TargetTimespan();
             CompactToTarget(RetargetBits(rules, bits, ClampedTimespan(from, to, expected), expected)) != 0
    ensures var expected := rules.TargetTimespan();
            PermittedDifficultyTransition(rules, height, bits,
              RetargetBits(rules, bits, ClampedTimespan(from, to, expected), expected))
  {
    var expected := rules.TargetTimespan();
    var actual := ClampedTimespan(from, to, expected);
    ClampedTimespanBounds(from, to, expected);
    if actual == 0 {
      EmptySpanGivesZero(rules, bits, actual, expected);
    } else {
      RetargetIsPermitted(rules, height, bits, actual, expected);
    }
  }

  lemma AdjustedIsPermitted(ns: seq<Node>, parent: nat, rules: PowRules)
    requires Linked(ns) && parent < |ns| && ns[parent].height < U32_MAX && TransitionsPermitted(ns, rules)
    requires !rules.allowMinDifficulty && !rules.noRetargeting && rules.RetargetsAt(ns[parent].height + 1)
    requires rules.retargetInterval <= ns[parent].height + 1
    requires rules.TargetTimespan() > 0 && QuarterIsExact(rules.TargetTimespan())
    requires CompactToTarget(AdjustedBits(ns, parent, rules)) != 0
    ensures PermittedDifficultyTransition(rules, ns[parent].height + 1, ns[parent].header.bits, AdjustedBits(ns, parent, rules))
  {
    var prev, height := ns[parent].header, ns[parent].height + 1;
    var anchor := ns[AncestorAt(ns, parent, height - rules.retargetInterval)].header;
    WindowStartsWithSameBits(ns, parent, rules);
    ClampedIsPermitted(rules, height, prev.bits, anchor.time, prev.time);
  }

  /** The required bits, once they pass the proof-of-work check, are a permitted transition. */
  lemma RequiredBitsArePermitted(ns: seq<Node>, parent: nat, header: Header, rules: PowRules)
    requires Linked(ns) && parent < |ns| && ns[parent].height < U32_MAX
    requires TransitionsAreBounded(rules) && TransitionsPermitted(ns, rules)
    requires header.bits == NextBits(ns, parent, header.time, rules)
    requires PowRefusal(header, header.hash, rules).None?
    ensures PermittedDifficultyTransition(rules, ns[parent].height + 1, ns[parent].header.bits, header.bits)
  {
    var prev := ns[parent].header;
    var height := ns[parent].height + 1;
    if !rules.allowMinDifficulty && rules.RetargetsAt(height) {
      if header.bits == prev.bits {
        UnchangedIsPermitted(rules, height, prev.bits);
      } else {
        AdjustedIsPermitted(ns, parent, rules);
      }
    }
  }

  /** A header new to the tree passed every check against its parent. */
  lemma AddedIsChecked(t: Tree, header: Header, net: Network, now: u32, mode: Mode)
    requires Core(t) && Added(t, header, net, now, mode)
    ensures PowRefusal(header, header.hash, net.pow).None?
    ensures t.nodes != [] ==>
              var parent := Lookup(t.nodes, header.prev);
              && parent.Some? && t.nodes[parent.value].height < U32_MAX
              && header.bits == NextBits(t.nodes, parent.value, header.time, net.pow)
              && header.time > MedianTimePast(t.nodes, parent.value)
  {
    if t.nodes != [] {
      var parent := Lookup(t.nodes, header.prev);
      assert ContextRefusal(t.nodes, parent.value, header, net, now, mode).None?;
    }
  }

  lemma TransitionFrame(ns: seq<Node>, ns': seq<Node>, rules: PowRules, i: nat)
    requires Linked(ns) && Linked(ns') && SameLinks(ns, ns') && i < |ns|
    ensures TransitionPermittedAt(ns', rules, i) <==> TransitionPermittedAt(ns, rules, i)
  {
    assert SameAt(ns, ns', i);
    if Parent(ns, i).Some? { assert SameAt(ns, ns', Parent(ns, i).value); }
  }

  lemma PlacedIsPermitted(t: Tree, t': Tree, header: Header, rules: PowRules)
    requires Core(t) && Core(t') && SameLinks(t.nodes, t'.nodes) && IsPlaced(t, t', header)
    requires t.nodes != [] ==>
               var parent := Lookup(t.nodes, header.prev);
               && parent.Some? && t.nodes[parent.value].height < U32_MAX
               && PermittedDifficultyTransition(rules, t.nodes[parent.value].height + 1,
                                                t.nodes[parent.value].header.bits, header.bits)
    requires TransitionsPermitted(t.nodes, rules)
    ensures TransitionsPermitted(t'.nodes, rules)
  {
    forall i: nat | i < |t'.nodes|
      ensures TransitionPermittedAt(t'.nodes, rules, i)
    {
      if i < |t.nodes| {
        assert TransitionPermittedAt(t.nodes, rules, i);
        TransitionFrame(t.nodes, t'.nodes, rules, i);
      } else if t.nodes != [] {
        assert SameAt(t.nodes, t'.nodes, Lookup(t.nodes, header.prev).value) && NodeOk(t'.nodes, i);
      }
    }
  }

  lemma AddedIsPermitted(t: Tree, header: Header, net: Network, now: u32, mode: Mode)
    requires Core(t) && Added(t, header, net, now, mode) && TransitionsAreBounded(net.pow)
    requires TransitionsPermitted(t.nodes, net.pow)
    ensures var t' := AcceptOne(t, header, net, now, mode).tree;
            Core(t') && TransitionsPermitted(t'.nodes, net.pow)
  {
    AcceptOneKeeps(t, header, net, now, mode);
    AddedIsChecked(t, header, net, now, mode);
    if t.nodes != [] {
      RequiredBitsArePermitted(t.nodes, Lookup(t.nodes, header.prev).value, header, net.pow);
    }
    PlacedIsPermitted(t, AcceptOne(t, header, net, now, mode).tree, header, net.pow);
  }

  /** Every batch keeps the chain's difficulty transitions within the permitted bounds. */
  lemma {:induction false} BatchKeepsTransitions(t: Tree, headers: seq<Header>, net: Network, now: u32, mode: Mode)
    requires Core(t) && TransitionsAreBounded(net.pow) && TransitionsPermitted(t.nodes, net.pow)
    ensures TransitionsPermitted(AcceptAll(t, headers, net, now, mode).tree.nodes, net.pow)
  {
    if headers != [] {
      var front, last := headers[..|headers| - 1], headers[|headers| - 1];
      BatchKeepsTransitions(t, front, net, now, mode);
      var before := AcceptAll(t, front, net, now, mode).tree;
      AcceptOneKeeps(before, last, net, now, mode);
      if Added(before, last, net, now, mode) {
        AddedIsPermitted(before, last, net, now, mode);
      }
    }
  }

  // ---- Median time past ----

  lemma TimeFrame(ns: seq<Node>, ns': seq<Node>, i: nat)
    requires Linked(ns) && Linked(ns') && SameLinks(ns, ns') && i < |ns|
    ensures TimeAboveMedian(ns', i) <==> TimeAboveMedian(ns, i)
  {
    assert SameAt(ns, ns', i);
    if Parent(ns, i).Some? {
      MedianFrame(ns, ns', Parent(ns, i).value);
    }
  }

  lemma NewestIsLater(ns: seq<Node>, ns': seq<Node>, parent: nat)
    requires Linked(ns) && Linked(ns') && SameLinks(ns, ns') && |ns'| == |ns| + 1 && parent < |ns|
    requires ns'[|ns|].parent == Some(parent) && ns'[|ns|].header.time > MedianTimePast(ns, parent)
    ensures TimeAboveMedian(ns', |ns|)
  {
    MedianFrame(ns, ns', parent);
  }

  lemma GrownIsLaterAt(ns: seq<Node>, ns': seq<Node>, parent: Option<nat>, i: nat)
    requires Linked(ns) && Linked(ns') && SameLinks(ns, ns') && |ns'| == |ns| + 1 && TimesAboveMedian(ns)
    requires ns'[|ns|].parent == parent && i < |ns'|
    requires parent.Some? ==> parent.value < |ns| && ns'[|ns|].header.time > MedianTimePast(ns, parent.value)
    ensures TimeAboveMedian(ns', i)
  {
    if i < |ns| {
      assert TimeAboveMedian(ns, i);
      TimeFrame(ns, ns', i);
    } else if parent.Some? {
      NewestIsLater(ns, ns', parent.value);
    }
  }

  lemma GrownIsLater(ns: seq<Node>, ns': seq<Node>, parent: Option<nat>)
    requires Linked(ns) && Linked(ns') && SameLinks(ns, ns') && |ns'| == |ns| + 1 && TimesAboveMedian(ns)
    requires ns'[|ns|].parent == parent
    requires parent.Some? ==> parent.value < |ns| && ns'[|ns|].header.time > MedianTimePast(ns, parent.value)
    ensures TimesAboveMedian(ns')
  {
    forall i: nat | i < |ns'| ensures TimeAboveMedian(ns', i) {
      GrownIsLaterAt(ns, ns', parent, i);
    }
  }

  lemma AddedIsLater(t: Tree, header: Header, net: Network, now: u32, mode: Mode)
    requires Core(t) && Added(t, header, net, now, mode) && TimesAboveMedian(t.nodes)
    ensures var t' := AcceptOne(t, header, net, now, mode).tree;
            Core(t') && TimesAboveMedian(t'.nodes)
  {
    AcceptOneKeeps(t, header, net, now, mode);
    AddedIsChecked(t, header, net, now, mode);
    var ns, ns' := t.nodes, AcceptOne(t, header, net, now, mode).tree.nodes;
    GrownIsLater(ns, ns', if ns == [] then None else Lookup(ns, header.prev));
  }

  lemma {:induction false} BatchKeepsTimes(t: Tree, headers: seq<Header>, net: Network, now: u32, mode: Mode)
    requires Core(t) && TimesAboveMedian(t.nodes)
    ensures TimesAboveMedian(AcceptAll(t, headers, net, now, mode).tree.nodes)
  {
    if headers != [] {
      var front, last := headers[..|headers| - 1], headers[|headers| - 1];
      BatchKeepsTimes(t, front, net, now, mode);
      var before := AcceptAll(t, front, net, now, mode).tree;
      AcceptOneKeeps(before, last, net, now, mode);
      if Added(before, last, net, now, mode) {
        AddedIsLater(before, last, net, now, mode);
      }
    }
  }

  // ---- Work ----

  function TipWork(t: Tree): nat
    requires t.tip.Some? ==> t.tip.value < |t.nodes|
  {
    if t.tip.None? then 0 else t.nodes[t.tip.value].chainwork
  }

  lemma AcceptOneNeverLosesWork(t: Tree, header: Header, net: Network, now: u32, mode: Mode)
    requires Core(t) && AcceptOne(t, header, net, now, mode).Accepted?
    ensures var t' := AcceptOne(t, header, net, now, mode).tree;
            Core(t') && TipWork(t) <= TipWork(t') && (t.tip.Some? ==> t'.tip.Some?)
  {
    AcceptOneKeeps(t, header, net, now, mode);
    var t' := AcceptOne(t, header, net, now, mode).tree;
    if t.tip.Some? { assert SameAt(t.nodes, t'.nodes, t.tip.value); }
  }

  /** The tip's work never falls while headers are accepted, rejected batches included. */
  lemma {:induction false} TipWorkNeverFalls(t: Tree, headers: seq<Header>, net: Network, now: u32, mode: Mode)
    requires Core(t)
    ensures TipWork(t) <= TipWork(AcceptAll(t, headers, net, now, mode).tree)
  {
    if headers != [] {
      var front, last := headers[..|headers| - 1], headers[|headers| - 1];
      TipWorkNeverFalls(t, front, net, now, mode);
      var before := AcceptAll(t, front, net, now, mode).tree;
      if AcceptOne(before, last, net, now, mode).Accepted? {
        AcceptOneNeverLosesWork(before, last, net, now, mode);
      }
    }
  }

  /** Every admitted header adds work, so a chain extending the tip always becomes the tip. */
  lemma AddedHasWork(t: Tree, header: Header, net: Network, now: u32, mode: Mode)
    requires Core(t) && Added(t, header, net, now, mode)
    ensures Chain.BlockWork(header) >= 1
  {
    AddedIsChecked(t, header, net, now, mode);
    BlockWorkIsExpectedHashes(header.bits);
  }
}
