/** What the required difficulty means, and exactly which headers are admitted. */
module DifficultyLaws {
  import opened Bounded
  import opened Compact
  import opened Work
  import opened Chain
  import opened TreeModel
  import opened MedianTime
  import opened Admission
  import opened AdmissionLaws

  // ---- Retargeting follows the time a window took ----

  /** The seconds between two times, kept between a quarter and four times the expected span. */
  function WindowSpan(from: u32, to: u32, expected: u32): u32 {
    Max(expected / 4, Min(to - from, Min(4 * expected, U32_MAX)))
  }

  lemma SpanIsClamped(from: u32, to: u32, expected: u32)
    ensures ClampedTimespan(from, to, expected) == WindowSpan(from, to, expected)
  {
  }

  /** The new target is the base target scaled by the clamped time between the window's first and last block. */
  lemma RetargetMeasuresWindow(ns: seq<Node>, parent: nat, rules: PowRules, first: nat)
    requires Linked(ns) && parent < |ns|
    requires 0 < rules.retargetInterval && first + rules.retargetInterval == ns[parent].height + 1
    requires !rules.noRetargeting && rules.TargetTimespan() > 0
    ensures var anchor, last := ns[AncestorAt(ns, parent, first)].header, ns[parent].header;
            var base := if rules.enforceBip94 then anchor.bits else last.bits;
            var span := WindowSpan(anchor.time, last.time, rules.TargetTimespan());
            AdjustedBits(ns, parent, rules)
            == TargetToCompact(IdealTarget(rules, CompactToTarget(base), span, rules.TargetTimespan()))
  {
    var anchor, last, expected := ns[AncestorAt(ns, parent, first)].header, ns[parent].header, rules.TargetTimespan();
    var base := if rules.enforceBip94 then anchor.bits else last.bits;
    SpanIsClamped(anchor.time, last.time, expected);
    RetargetIsExact(rules, base, WindowSpan(anchor.time, last.time, expected), expected);
  }

  /** A window that took longer never makes the next target harder. */
  lemma SlowerIsNeverHarder(rules: PowRules, bits: u32, fast: u32, slow: u32, expected: u32)
    requires expected != 0 && fast <= slow
    ensures CompactToTarget(RetargetBits(rules, bits, fast, expected))
         <= CompactToTarget(RetargetBits(rules, bits, slow, expected))
  {
    var t := CompactToTarget(bits);
    RetargetIsExact(rules, bits, fast, expected);
    RetargetIsExact(rules, bits, slow, expected);
    MulMonotone(fast, slow, t);
    DivMonotone(t * fast, t * slow, expected);
    RoundTripMonotone(IdealTarget(rules, t, fast, expected), IdealTarget(rules, t, slow, expected));
  }

  /** A window that took exactly the expected time leaves a valid target as it is. */
  lemma OnScheduleKeepsTarget(rules: PowRules, bits: u32, expected: u32)
    requires expected != 0 && !CompactOverflows(bits) && CompactToTarget(bits) <= rules.maxTarget
    ensures CompactToTarget(RetargetBits(rules, bits, expected, expected)) == CompactToTarget(bits)
  {
    RetargetIsExact(rules, bits, expected, expected);
    MulDiv(CompactToTarget(bits), expected);
    DecodedIsFixed(bits);
  }

  /** A retarget of allowed bits, over a window between two times, is permitted unless nobody could mine it. */
  predicate RetargetPermitted(rules: PowRules, bits: u32, from: u32, to: u32)
    requires rules.retargetInterval > 0 && rules.TargetTimespan() > 0
  {
    var expected := rules.TargetTimespan();
    var next := RetargetBits(rules, bits, ClampedTimespan(from, to, expected), expected);
    !CompactOverflows(bits) && 0 < CompactToTarget(bits) <= rules.maxTarget && CompactToTarget(next) > 0
    ==> PermittedDifficultyTransition(rules, rules.retargetInterval, bits, next)
  }

  /** Every retarget is permitted exactly when the expected timespan is divisible by four, or below four. */
  lemma RetargetsPermittedIff(rules: PowRules)
    requires rules.retargetInterval > 0 && rules.TargetTimespan() > 0 && !rules.allowMinDifficulty && rules.maxTarget >= 8
    ensures (forall bits: u32, from: u32, to: u32 :: RetargetPermitted(rules, bits, from, to))
            <==> QuarterIsExact(rules.TargetTimespan())
  {
    if QuarterIsExact(rules.TargetTimespan()) {
      forall bits: u32, from: u32, to: u32 ensures RetargetPermitted(rules, bits, from, to) {
        var expected := rules.TargetTimespan();
        if CompactToTarget(RetargetBits(rules, bits, ClampedTimespan(from, to, expected), expected)) > 0 {
          ClampedIsPermitted(rules, rules.retargetInterval, bits, from, to);
        }
      }
    } else {
      var bits := BitsFor(8);
      FastestIsRefused(rules, bits);
    }
  }

  lemma EightByTheQuarter(quarter: nat, expected: nat)
    requires 4 < expected && expected % 4 != 0 && quarter == expected / 4
    ensures (8 * quarter) / expected == 1
  {
    DivUnique(8 * quarter, expected, 1, 8 * quarter - expected);
  }

  /** The fastest window takes target 8 to 1. */
  lemma FastestTarget(rules: PowRules, bits: u32)
    requires !QuarterIsExact(rules.TargetTimespan()) && rules.maxTarget >= 8 && CompactToTarget(bits) == 8
    ensures var expected := rules.TargetTimespan();
            var next := RetargetBits(rules, bits, expected / 4, expected);
            CompactToTarget(next) == 1 && !CompactOverflows(next)
  {
    var expected := rules.TargetTimespan();
    var quarter := expected / 4;
    EightByTheQuarter(quarter, expected);
    RetargetIsExact(rules, bits, quarter, expected);
    var ideal := IdealTarget(rules, CompactToTarget(bits), quarter, expected);
    assert ideal == 1;
    SmallTargetsAreExact(ideal);
  }

  /** A target below the quarter the transition test allows is refused, when that quarter is encoded exactly. */
  lemma BelowTheQuarterIsRefused(rules: PowRules, height: u32, bits: u32, next: u32, quarter: u256)
    requires rules.RetargetsAt(height) && !rules.allowMinDifficulty
    requires quarter == CompactToTarget(bits) / 4 <= rules.maxTarget
    requires CompactToTarget(TargetToCompact(quarter)) == quarter > CompactToTarget(next)
    ensures !PermittedDifficultyTransition(rules, height, bits, next)
  {
  }

  lemma EightToOneIsRefused(rules: PowRules, height: u32, bits: u32, next: u32)
    requires rules.RetargetsAt(height) && !rules.allowMinDifficulty && rules.maxTarget >= 8
    requires CompactToTarget(bits) == 8 && CompactToTarget(next) == 1
    ensures !PermittedDifficultyTransition(rules, height, bits, next)
  {
    var quarter: u256 := CompactToTarget(bits) / 4;
    SmallTargetsAreExact(quarter);
    BelowTheQuarterIsRefused(rules, height, bits, next, quarter);
  }

  /** So, when the condition fails, the fastest retarget of target 8 is refused. */
  lemma FastestIsRefused(rules: PowRules, bits: u32)
    requires rules.retargetInterval > 0 && !QuarterIsExact(rules.TargetTimespan()) && !rules.allowMinDifficulty
    requires rules.maxTarget >= 8 && CompactToTarget(bits) == 8 && !CompactOverflows(bits)
    ensures !RetargetPermitted(rules, bits, 0, 0)
  {
    var expected := rules.TargetTimespan();
    FastestTarget(rules, bits);
    EightToOneIsRefused(rules, rules.retargetInterval, bits, RetargetBits(rules, bits, expected / 4, expected));
  }

  lemma SmallTargetsAreExact(t: u256)
    requires 0 < t < 0x8000
    ensures CompactToTarget(TargetToCompact(t)) == t && !CompactOverflows(TargetToCompact(t))
  {
    SmallPowers();
    ByteLenMonotone(2 * t, 0xFFFF);
    assert ByteLen(0xFFFF) == 2;
    RoundTrip(t);
  }

  lemma BitsFor(t: u256) returns (bits: u32)
    requires 0 < t < 0x8000
    ensures CompactToTarget(bits) == t && !CompactOverflows(bits)
  {
    SmallTargetsAreExact(t);
    bits := TargetToCompact(t);
  }

  // ---- Minimum-difficulty networks ----

  /** A node at which the walk back from a minimum-difficulty block stops. */
  predicate StopsWalk(ns: seq<Node>, i: nat, rules: PowRules)
    requires Linked(ns) && i < |ns|
  {
    rules.RetargetsAt(ns[i].height) || ns[i].header.bits != rules.PowLimitBits() || Parent(ns, i).None?
  }

  /** The walk answers with the nearest ancestor, itself included, that stops it. */
  lemma {:induction false} WalkFindsNearest(ns: seq<Node>, i: nat, rules: PowRules) returns (a: nat)
    requires Linked(ns) && i < |ns|
    ensures IsAncestor(ns, a, i) && StopsWalk(ns, a, rules)
    ensures LastRegularBits(ns, i, rules) == ns[a].header.bits
    ensures forall b: nat :: IsAncestor(ns, b, i) && ns[b].height > ns[a].height ==> !StopsWalk(ns, b, rules)
  {
    if StopsWalk(ns, i, rules) {
      a := i;
      AncestorOfParent(ns, i, i);
    } else {
      var p := Parent(ns, i).value;
      a := WalkFindsNearest(ns, p, rules);
      AncestorOfParent(ns, a, i);
      forall b: nat | IsAncestor(ns, b, i) && ns[b].height > ns[a].height ensures !StopsWalk(ns, b, rules) {
        AncestorOfParent(ns, b, i);
      }
    }
  }

  // ---- Exactly what is admitted ----

  /** The header hashes to no more than the target its bits name, and the network allows that target. */
  predicate MeetsTarget(header: Header, rules: PowRules) {
    && !CompactOverflows(header.bits)
    && 0 < CompactToTarget(header.bits) <= rules.maxTarget
    && CompactIsMetBy(header.bits, header.hash)
  }

  predicate VersionAllowed(version: int, height: nat, net: Network) {
    && (version >= 2 || height < net.bip34Height)
    && (version >= 3 || height < net.bip66Height)
    && (version >= 4 || height < net.bip65Height)
  }

  /** Every rule a header must satisfy against its parent. */
  predicate ObeysRules(ns: seq<Node>, parent: nat, header: Header, net: Network, now: u32, mode: Mode)
    requires Linked(ns) && parent < |ns|
  {
    var height := ns[parent].height + 1;
    && header.bits == NextBits(ns, parent, header.time, net.pow)
    && header.time > MedianTimePast(ns, parent)
    && (net.pow.enforceBip94 && net.pow.RetargetsAt(height) ==> header.time >= ns[parent].header.time - MAX_TIMEWARP)
    && (mode.LiveAdmission? ==> header.time <= now + MAX_FUTURE_TIME_SECONDS)
    && VersionAllowed(header.version, height, net)
  }

  /** A node can be numbered and weighed: neither its height nor its chainwork overflows. */
  predicate Fits(ns: seq<Node>, parent: nat, header: Header)
    requires parent < |ns|
  {
    ns[parent].height < U32_MAX && ns[parent].chainwork + Chain.BlockWork(header) < U256_LIMIT
  }

  lemma ContextIff(ns: seq<Node>, parent: nat, header: Header, net: Network, now: u32, mode: Mode)
    requires Linked(ns) && parent < |ns|
    ensures ContextRefusal(ns, parent, header, net, now, mode).None?
            <==> ns[parent].height < U32_MAX && ObeysRules(ns, parent, header, net, now, mode)
  {
  }

  /**
   A header joins a tree exactly when it is mined and new and either founds the empty tree as its
   genesis or follows a valid node within every rule.
   */
  lemma AdmittedIff(t: Tree, header: Header, net: Network, now: u32, mode: Mode)
    requires Core(t)
    ensures Added(t, header, net, now, mode) <==>
              && Lookup(t.nodes, header.hash).None? && MeetsTarget(header, net.pow)
              && if t.nodes == [] then header.hash == net.genesisHash
                 else
                   var parent := Lookup(t.nodes, header.prev);
                   && parent.Some? && !t.nodes[parent.value].status.Invalid?
                   && ObeysRules(t.nodes, parent.value, header, net, now, mode)
                   && Fits(t.nodes, parent.value, header)
  {
    var parent := Lookup(t.nodes, header.prev);
    if parent.Some? {
      ContextIff(t.nodes, parent.value, header, net, now, mode);
    }
  }
}
