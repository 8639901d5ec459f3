/** Header admission as the node runs it over a block tree (header_sync.rs). */
module HeaderSync {
  import opened Wrappers
  import opened Bounded
  import opened Work
  import opened Chain
  import opened TreeModel
  import opened Admission
  import opened Demotion
  import opened BlockTrees

  datatype AcceptHeadersResult = AcceptHeadersResult(ids: seq<nat>, demotedTip: Option<Hash>)

  /** Walks back over minimum-difficulty blocks to the bits a regular block must carry. */
  method ExpectedNonRetargetBits(tree: BlockTree, parent: nat, time: u32, rules: PowRules) returns (bits: u32)
    requires tree.Structure() && parent < |tree.nodes|
    ensures bits == NonRetargetBits(tree.nodes, parent, time, rules)
  {
    var ns := tree.nodes;
    if !rules.allowMinDifficulty {
      return ns[parent].header.bits;
    }
    var limit := SaturatingAdd32(ns[parent].header.time, SaturatingMul32(rules.targetSpacing, 2));
    if time > limit {
      return rules.PowLimitBits();
    }
    var powLimit := rules.PowLimitBits();
    var cursor: nat := parent;
    while !rules.RetargetsAt(ns[cursor].height) && ns[cursor].header.bits == powLimit && Parent(ns, cursor).Some?
      invariant cursor < |ns| && LastRegularBits(ns, cursor, rules) == LastRegularBits(ns, parent, rules)
      decreases cursor
    {
      cursor := Parent(ns, cursor).value;
    }
    bits := ns[cursor].header.bits;
  }

  method ExpectedRetargetBits(tree: BlockTree, parent: nat, rules: PowRules) returns (bits: u32)
    requires tree.Structure() && parent < |tree.nodes|
    ensures bits == AdjustedBits(tree.nodes, parent, rules)
  {
    var prev := tree.nodes[parent].header;
    var height := tree.nodes[parent].height + 1;
    if rules.noRetargeting || height < rules.retargetInterval {
      return prev.bits;
    }
    var anchorId: Option<nat> := None;
    if height - rules.retargetInterval <= U32_MAX {
      anchorId := tree.NodeAtHeightFrom(parent, height - rules.retargetInterval);
    }
    var expected := rules.TargetTimespan();
    if anchorId.None? || expected == 0 {
      return prev.bits;
    }
    var anchor := tree.nodes[anchorId.value].header;
    var base := if rules.enforceBip94 then anchor.bits else prev.bits;
    bits := RetargetBits(rules, base, ClampedTimespan(anchor.time, prev.time, expected), expected);
  }

  method NextWorkRequired(tree: BlockTree, parent: nat, time: u32, rules: PowRules)
    returns (r: Result<u32, ChainError>)
    requires tree.Structure()
    ensures r == if parent >= |tree.nodes| then Err(UnknownNode(parent))
                 else if tree.nodes[parent].height == U32_MAX then Err(HeightOverflow(parent))
                 else Ok(NextBits(tree.nodes, parent, time, rules))
  {
    if parent >= |tree.nodes| {
      return Err(UnknownNode(parent));
    }
    if tree.nodes[parent].height == U32_MAX {
      return Err(HeightOverflow(parent));
    }
    var bits;
    if rules.RetargetsAt(tree.nodes[parent].height + 1) {
      bits := ExpectedRetargetBits(tree, parent, rules);
    } else {
      bits := ExpectedNonRetargetBits(tree, parent, time, rules);
    }
    r := Ok(bits);
  }

  method ValidateContextualHeader(tree: BlockTree, parent: nat, header: Header, net: Network, now: u32, mode: Mode)
    returns (refusal: Option<ChainError>)
    requires tree.Structure()
    ensures refusal == if parent >= |tree.nodes| then Some(UnknownNode(parent))
                       else ContextRefusal(tree.nodes, parent, header, net, now, mode)
  {
    var expected := NextWorkRequired(tree, parent, header.time, net.pow);
    if expected.Err? {
      return Some(expected.error);
    }
    var above := tree.nodes[parent];
    var height: u32 := above.height + 1;
    if header.bits != expected.value {
      return Some(NbitsMismatch(header.bits, expected.value, height));
    }
    var median := tree.MedianTimePastAt(parent);
    if header.time <= median.value {
      return Some(TimestampTooEarly(header.hash, header.time, median.value));
    }
    var minimum := MinimumCandidateTime(above.header.time, height, net.pow);
    if net.pow.enforceBip94 && minimum.Some? && header.time < minimum.value {
      return Some(TimewarpAttack(height, header.time, minimum.value));
    }
    if mode == LiveAdmission {
      var maxAllowed := SaturatingAdd32(now, MAX_FUTURE_TIME_SECONDS);
      if header.time > maxAllowed {
        return Some(TimestampTooFarAhead(header.hash, header.time, maxAllowed));
      }
    }
    refusal := VersionRefusal(header.version, height, net);
  }

  /** Admits one header: known ones are returned, new ones checked and inserted. */
  method AcceptHeader(tree: BlockTree, header: Header, net: Network, now: u32, mode: Mode)
    returns (r: Result<Inserted, ChainError>)
    requires tree.Valid()
    modifies tree
    ensures tree.Valid() && tree.bip9 == old(tree.bip9)
    ensures match AcceptOne(old(tree.View()), header, net, now, mode)
            case Rejected(e) => r == Err(e) && tree.View() == old(tree.View())
            case Accepted(t, id, demoted) => r == Ok(Inserted(id, demoted)) && tree.View() == t
  {
    var existing := tree.LookupHash(header.hash);
    if existing.Some? {
      if tree.nodes[existing.value].status.Invalid? {
        return Err(KnownInvalidHeader(header.hash));
      }
      return Ok(Inserted(existing.value, None));
    }
    var work := PowRefusal(header, header.hash, net.pow);
    if work.Some? {
      return Err(work.value);
    }
    if |tree.nodes| == 0 {
      if header.hash != net.genesisHash {
        return Err(MissingParent(header.prev));
      }
    } else {
      var parent := tree.LookupHash(header.prev);
      if parent.None? {
        return Err(MissingParent(header.prev));
      }
      if tree.nodes[parent.value].status.Invalid? {
        return Err(InvalidParent(parent.value));
      }
      var refusal := ValidateContextualHeader(tree, parent.value, header, net, now, mode);
      if refusal.Some? {
        return Err(refusal.value);
      }
    }
    r := tree.InsertHeaderWithHash(header, header.hash, HeaderValid);
  }

  /** Admits a batch in order, stopping at the first error with the prefix kept. */
  method AcceptHeaders(tree: BlockTree, headers: seq<Header>, net: Network, now: u32, mode: Mode)
    returns (r: Result<AcceptHeadersResult, ChainError>)
    requires tree.Valid()
    modifies tree
    ensures tree.Valid() && tree.bip9 == old(tree.bip9)
    ensures var b := AcceptAll(old(tree.View()), headers, net, now, mode);
            && tree.View() == b.tree
            && r == if b.error.Some? then Err(b.error.value) else Ok(AcceptHeadersResult(b.ids, b.demotedTip))
  {
    var ids: seq<nat>, demoted: Option<Hash> := [], None;
    ghost var start := tree.View();
    assert headers[..0] == [];
    for k := 0 to |headers|
      invariant tree.Valid() && tree.bip9 == old(tree.bip9)
      invariant AcceptAll(start, headers[..k], net, now, mode) == Batch(tree.View(), ids, demoted, None)
    {
      assert headers[..k + 1][..k] == headers[..k];
      var inserted := AcceptHeader(tree, headers[k], net, now, mode);
      if inserted.Err? {
        ErrorSticks(start, headers, k + 1, net, now, mode);
        return Err(inserted.error);
      }
      ids := ids + [inserted.value.id];
      if demoted.None? {
        demoted := inserted.value.demotedTip;
      }
    }
    assert headers[..|headers|] == headers;
    r := Ok(AcceptHeadersResult(ids, demoted));
  }

  /** Once a header is rejected the rest of its batch changes nothing. */
  lemma {:induction false} ErrorSticks(t: Tree, headers: seq<Header>, k: nat, net: Network, now: u32, mode: Mode)
    requires Core(t) && k <= |headers| && AcceptAll(t, headers[..k], net, now, mode).error.Some?
    ensures AcceptAll(t, headers, net, now, mode) == AcceptAll(t, headers[..k], net, now, mode)
  {
    if k == |headers| {
      assert headers[..k] == headers;
    } else {
      var front := headers[..|headers| - 1];
      assert front[..k] == headers[..k];
      ErrorSticks(t, front, k, net, now, mode);
    }
  }

  /** Recomputes the displaced tip from the tree the headers left. */
  method DemotedTip(tree: BlockTree, preTip: Option<Hash>) returns (demoted: Option<Hash>)
    requires tree.Structure()
    ensures demoted == DemotedTipAfterRejection(tree.View(), preTip)
  {
    if preTip.None? {
      return None;
    }
    var preId := tree.LookupHash(preTip.value);
    if preId.None? || tree.tip.None? || tree.tip.value.hash == preTip.value {
      return None;
    }
    var meet := tree.FindCommonAncestor(preId.value, tree.tip.value.tipId);
    demoted := if meet == preId then None else preTip;
  }
}
