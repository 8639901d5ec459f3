/** What header admission checks and does to a tree, as functions (header_sync.rs). */
module Admission {
  import opened Wrappers
  import opened Bounded
  import opened Compact
  import opened Work
  import opened Chain
  import opened TreeModel
  import opened MedianTime

  const MAX_FUTURE_TIME_SECONDS: u32 := 7200
  const MAX_TIMEWARP: u32 := 600

  datatype Mode = LiveAdmission | HistoricalReplay

  datatype Network = Network(
    pow: PowRules,
    genesisHash: Hash,
    bip34Height: u32,
    bip66Height: u32,
    bip65Height: u32)

  // ---- Required difficulty ----

  /** The bits of the nearest ancestor that is not a minimum-difficulty exception. */
  function LastRegularBits(ns: seq<Node>, i: nat, rules: PowRules): u32
    requires Linked(ns) && i < |ns|
  {
    if rules.RetargetsAt(ns[i].height) || ns[i].header.bits != rules.PowLimitBits() || Parent(ns, i).None?
    then ns[i].header.bits
    else LastRegularBits(ns, Parent(ns, i).value, rules)
  }

  function NonRetargetBits(ns: seq<Node>, parent: nat, time: u32, rules: PowRules): u32
    requires Linked(ns) && parent < |ns|
  {
    if !rules.allowMinDifficulty then ns[parent].header.bits
    else if time > SaturatingAdd32(ns[parent].header.time, SaturatingMul32(rules.targetSpacing, 2))
    then rules.PowLimitBits()
    else LastRegularBits(ns, parent, rules)
  }

  function AdjustedBits(ns: seq<Node>, parent: nat, rules: PowRules): u32
    requires Linked(ns) && parent < |ns|
  {
    var prev := ns[parent].header;
    var height := ns[parent].height + 1;
    var expected := rules.TargetTimespan();
    if rules.noRetargeting || height < rules.retargetInterval || rules.retargetInterval == 0 || expected == 0
    then prev.bits
    else
      var anchor := ns[AncestorAt(ns, parent, height - rules.retargetInterval)].header;
      var base := if rules.enforceBip94 then anchor.bits else prev.bits;
      RetargetBits(rules, base, ClampedTimespan(anchor.time, prev.time, expected), expected)
  }

  function NextBits(ns: seq<Node>, parent: nat, time: u32, rules: PowRules): u32
    requires Linked(ns) && parent < |ns|
  {
    if rules.RetargetsAt(ns[parent].height + 1) then AdjustedBits(ns, parent, rules)
    else NonRetargetBits(ns, parent, time, rules)
  }

  // ---- Checks ----

  function PowRefusal(header: Header, hash: Hash, rules: PowRules): Option<ChainError> {
    var target := CompactToTarget(header.bits);
    if CompactOverflows(header.bits) then Some(TargetBitsOverflow(header.bits))
    else if target == 0 then Some(ZeroTarget(hash))
    else if target > rules.maxTarget then Some(TargetExceedsLimit(hash, target, rules.maxTarget))
    else if !CompactIsMetBy(header.bits, hash) then Some(InvalidPow(hash, target))
    else None
  }

  function MinimumCandidateTime(parentTime: u32, height: u32, rules: PowRules): Option<u32> {
    if rules.RetargetsAt(height) then Some(SaturatingSub32(parentTime, MAX_TIMEWARP)) else None
  }

  function VersionRefusal(version: int, height: u32, net: Network): Option<ChainError> {
    if height >= net.bip34Height && version < 2 then Some(BadVersion(version, 2, height))
    else if height >= net.bip66Height && version < 3 then Some(BadVersion(version, 3, height))
    else if height >= net.bip65Height && version < 4 then Some(BadVersion(version, 4, height))
    else None
  }

  function ContextRefusal(ns: seq<Node>, parent: nat, header: Header, net: Network, now: u32, mode: Mode)
    : Option<ChainError>
    requires Linked(ns) && parent < |ns|
  {
    if ns[parent].height + 1 > U32_MAX then Some(HeightOverflow(parent))
    else
      var height: u32 := ns[parent].height + 1;
      var expected := NextBits(ns, parent, header.time, net.pow);
      var median := MedianTimePast(ns, parent);
      var minimum := MinimumCandidateTime(ns[parent].header.time, height, net.pow);
      var maxAllowed := SaturatingAdd32(now, MAX_FUTURE_TIME_SECONDS);
      if header.bits != expected then Some(NbitsMismatch(header.bits, expected, height))
      else if header.time <= median then Some(TimestampTooEarly(header.hash, header.time, median))
      else if net.pow.enforceBip94 && minimum.Some? && header.time < minimum.value
      then Some(TimewarpAttack(height, header.time, minimum.value))
      else if mode.LiveAdmission? && header.time > maxAllowed
      then Some(TimestampTooFarAhead(header.hash, header.time, maxAllowed))
      else VersionRefusal(header.version, height, net)
  }

  // ---- Acceptance ----

  datatype Step = Rejected(error: ChainError) | Accepted(tree: Tree, id: nat, demotedTip: Option<Hash>)

  function StepOf(outcome: Insertion): Step {
    match outcome
    case Refused(e) => Rejected(e)
    case Placed(tree, id, demotedTip) => Accepted(tree, id, demotedTip)
  }

  function AcceptOne(t: Tree, header: Header, net: Network, now: u32, mode: Mode): Step
    requires Core(t)
  {
    var existing := Lookup(t.nodes, header.hash);
    var parent := Lookup(t.nodes, header.prev);
    var work := PowRefusal(header, header.hash, net.pow);
    if existing.Some? then
      if t.nodes[existing.value].status.Invalid? then Rejected(KnownInvalidHeader(header.hash))
      else Accepted(t, existing.value, None)
    else if work.Some? then Rejected(work.value)
    else if t.nodes == [] then
      if header.hash != net.genesisHash then Rejected(MissingParent(header.prev))
      else StepOf(InsertByPrev(t, header, header.hash, HeaderValid))
    else if parent.None? then Rejected(MissingParent(header.prev))
    else if t.nodes[parent.value].status.Invalid? then Rejected(InvalidParent(parent.value))
    else
      var context := ContextRefusal(t.nodes, parent.value, header, net, now, mode);
      if context.Some? then Rejected(context.value)
      else StepOf(InsertByPrev(t, header, header.hash, HeaderValid))
  }

  /** A batch so far: the tree, the ids accepted, the first tip displaced, and any error. */
  datatype Batch = Batch(tree: Tree, ids: seq<nat>, demotedTip: Option<Hash>, error: Option<ChainError>)

  function AcceptAll(t: Tree, headers: seq<Header>, net: Network, now: u32, mode: Mode): (b: Batch)
    requires Core(t)
    ensures Core(b.tree)
  {
    if headers == [] then Batch(t, [], None, None)
    else
      var before := AcceptAll(t, headers[..|headers| - 1], net, now, mode);
      AcceptOneKeeps(before.tree, headers[|headers| - 1], net, now, mode);
      Extend(before, headers[|headers| - 1], net, now, mode)
  }

  function Extend(b: Batch, header: Header, net: Network, now: u32, mode: Mode): Batch
    requires Core(b.tree)
  {
    if b.error.Some? then b
    else match AcceptOne(b.tree, header, net, now, mode)
      case Rejected(e) => b.(error := Some(e))
      case Accepted(tree, id, demotedTip) =>
        Batch(tree, b.ids + [id], if b.demotedTip.Some? then b.demotedTip else demotedTip, None)
  }

  /** A header accepted into the tree as a new node. */
  ghost predicate Added(t: Tree, header: Header, net: Network, now: u32, mode: Mode)
    requires Core(t)
  {
    var step := AcceptOne(t, header, net, now, mode);
    step.Accepted? && Lookup(t.nodes, header.hash).None?
  }

  /** Every acceptance keeps the tree's invariants and each earlier node's place. */
  lemma AcceptOneKeeps(t: Tree, header: Header, net: Network, now: u32, mode: Mode)
    requires Core(t)
    ensures var step := AcceptOne(t, header, net, now, mode);
            step.Accepted? ==>
              && Core(step.tree) && SameLinks(t.nodes, step.tree.nodes)
              && (TipIsBest(t.nodes, t.tip) ==> Inv(step.tree))
              && (Added(t, header, net, now, mode) ==> IsPlaced(t, step.tree, header))
              && (!Added(t, header, net, now, mode) ==> step.tree == t && step.demotedTip == None)
  {
    var step := AcceptOne(t, header, net, now, mode);
    if Added(t, header, net, now, mode) {
      InsertKeepsInv(t, HeaderParent(t.nodes, header).value, header, header.hash, HeaderValid);
    }
  }

  /** The tree grew by exactly this header, under the node its previous hash names. */
  ghost predicate IsPlaced(t: Tree, t': Tree, header: Header) {
    && |t'.nodes| == |t.nodes| + 1
    && t'.nodes[|t.nodes|].header == header && t'.nodes[|t.nodes|].hash == header.hash
    && t'.nodes[|t.nodes|].parent == (if t.nodes == [] then None else Lookup(t.nodes, header.prev))
    && (t'.tip == t.tip || t'.tip == Some(|t.nodes|))
  }

  lemma {:induction false} AcceptAllKeeps(t: Tree, headers: seq<Header>, net: Network, now: u32, mode: Mode)
    requires Inv(t)
    ensures Inv(AcceptAll(t, headers, net, now, mode).tree)
    ensures SameLinks(t.nodes, AcceptAll(t, headers, net, now, mode).tree.nodes)
  {
    if headers != [] {
      var front, last := headers[..|headers| - 1], headers[|headers| - 1];
      AcceptAllKeeps(t, front, net, now, mode);
      var before := AcceptAll(t, front, net, now, mode).tree;
      AcceptOneKeeps(before, last, net, now, mode);
      if AcceptOne(before, last, net, now, mode).Accepted? {
        LinksTransitive(t.nodes, before.nodes, AcceptOne(before, last, net, now, mode).tree.nodes);
      }
    }
  }

  /** A rejected batch leaves exactly what its accepted prefix leaves. */
  lemma {:induction false} RejectionKeepsPrefix(t: Tree, headers: seq<Header>, net: Network, now: u32, mode: Mode)
    returns (k: nat)
    requires Core(t) && AcceptAll(t, headers, net, now, mode).error.Some?
    ensures k < |headers| && AcceptAll(t, headers[..k], net, now, mode).error.None?
    ensures var whole, prefix := AcceptAll(t, headers, net, now, mode), AcceptAll(t, headers[..k], net, now, mode);
            whole == prefix.(error := whole.error)
            && AcceptOne(prefix.tree, headers[k], net, now, mode) == Rejected(whole.error.value)
  {
    var n := |headers| - 1;
    var front := headers[..n];
    if AcceptAll(t, front, net, now, mode).error.Some? {
      k := RejectionKeepsPrefix(t, front, net, now, mode);
      assert front[..k] == headers[..k];
    } else {
      k := n;
    }
  }
}
