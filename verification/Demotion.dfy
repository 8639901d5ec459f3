/** What a header batch reports about the tip it displaced (header_sync.rs). */
module Demotion {
  import opened Wrappers
  import opened Bounded
  import opened Chain
  import opened TreeModel
  import opened Admission
  import opened AdmissionLaws

  /** Recomputes from the tree which earlier tip is no longer on the active chain. */
  function DemotedTipAfterRejection(t: Tree, preTip: Option<Hash>): Option<Hash>
    requires Core(t)
  {
    if preTip.None? then None
    else
      var preId := Lookup(t.nodes, preTip.value);
      if preId.None? || t.tip.None? then None
      else if t.nodes[t.tip.value].hash == preTip.value then None
      else if CommonAncestor(t.nodes, preId.value, t.tip.value) == preId then None
      else preTip
  }

  function TipHash(t: Tree): Option<Hash>
    requires Core(t)
  {
    if t.tip.None? then None else Some(t.nodes[t.tip.value].hash)
  }

  ghost predicate LinkedBatch(headers: seq<Header>) {
    forall k :: 0 < k < |headers| ==> headers[k].prev == headers[k - 1].hash
  }

  /** A hash stands for one previous hash, and no header hashes to a root's previous hash. */
  ghost predicate HashesIdentify(ns: seq<Node>, headers: seq<Header>, genesis: Hash) {
    && (forall i: nat, k: nat :: i < |ns| && k < |headers| ==> NodeIdentified(ns[i], headers[k]))
    && (forall j: nat, k: nat :: j < |headers| && k < |headers| ==> HeaderIdentified(headers[j], headers[k], genesis))
  }

  predicate NodeIdentified(n: Node, h: Header) {
    && (n.hash == h.hash ==> n.header.prev == h.prev)
    && (n.parent.None? ==> n.header.prev != h.hash)
  }

  predicate HeaderIdentified(g: Header, h: Header, genesis: Hash) {
    && (g.hash == h.hash ==> g.prev == h.prev)
    && (g.hash == genesis ==> g.prev != h.hash)
  }

  /** Accepting more of the batch keeps hashes identifying headers in the grown tree. */
  lemma {:induction false} IdentifyKept(t: Tree, headers: seq<Header>, k: nat, net: Network, now: u32, mode: Mode)
    requires Core(t) && k <= |headers| && HashesIdentify(t.nodes, headers, net.genesisHash)
    ensures HashesIdentify(AcceptAll(t, headers[..k], net, now, mode).tree.nodes, headers, net.genesisHash)
  {
    if k > 0 {
      var front, last := headers[..k - 1], headers[k - 1];
      assert headers[..k][..k - 1] == front;
      IdentifyKept(t, headers, k - 1, net, now, mode);
      var before := AcceptAll(t, front, net, now, mode).tree;
      AcceptOneKeeps(before, last, net, now, mode);
      if Added(before, last, net, now, mode) {
        IdentifyAdded(before, headers, k - 1, net, now, mode);
      }
    }
  }

  lemma IdentifyAdded(t: Tree, headers: seq<Header>, k: nat, net: Network, now: u32, mode: Mode)
    requires Core(t) && k < |headers| && HashesIdentify(t.nodes, headers, net.genesisHash)
    requires Added(t, headers[k], net, now, mode)
    ensures HashesIdentify(AcceptOne(t, headers[k], net, now, mode).tree.nodes, headers, net.genesisHash)
  {
    AcceptOneKeeps(t, headers[k], net, now, mode);
    var ns' := AcceptOne(t, headers[k], net, now, mode).tree.nodes;
    forall i: nat, j: nat | i < |ns'| && j < |headers|
      ensures NodeIdentified(ns'[i], headers[j])
    {
      if i < |t.nodes| {
        assert SameAt(t.nodes, ns', i) && NodeIdentified(t.nodes[i], headers[j]);
      } else {
        assert HeaderIdentified(headers[k], headers[j], net.genesisHash);
        AddedIsChecked(t, headers[k], net, now, mode);
      }
    }
  }

  /** Whether the tip reported on is left: it was a tip and the new one does not extend it. */
  function LeftBehind(t: Tree, pre: Option<nat>): Option<Hash>
    requires Core(t) && (pre.Some? ==> pre.value < |t.nodes|)
  {
    if pre.Some? && t.tip.Some? && !IsAncestor(t.nodes, pre.value, t.tip.value)
    then Some(t.nodes[pre.value].hash) else None
  }

  /** Either the batch has not moved the tip, or the tip is its last header. */
  ghost predicate BatchState(t0: Tree, b: Batch, last: Option<Header>)
    requires Core(t0) && Core(b.tree)
  {
    && SameLinks(t0.nodes, b.tree.nodes)
    && b.demotedTip == LeftBehind(b.tree, t0.tip)
    && (b.tree.tip == t0.tip
        || (b.tree.nodes != [] && b.tree.tip == Some(|b.tree.nodes| - 1) && |b.tree.nodes| > |t0.nodes|
            && last.Some? && b.tree.nodes[|b.tree.nodes| - 1].hash == last.value.hash))
  }

  /** A batch that moved the tip can only be continued by a header new to the tree. */
  lemma ContinuationIsNew(t0: Tree, b: Batch, last: Header, next: Header)
    requires Core(t0) && Core(b.tree) && BatchState(t0, b, Some(last)) && b.tree.tip != t0.tip
    requires next.prev == last.hash
    requires forall i: nat :: i < |b.tree.nodes| ==> NodeIdentified(b.tree.nodes[i], next) && NodeIdentified(b.tree.nodes[i], last)
    ensures Lookup(b.tree.nodes, next.hash).None?
  {
    var ns := b.tree.nodes;
    var top := |ns| - 1;
    var found := Lookup(ns, next.hash);
    if found.Some? {
      var i := found.value;
      assert NodeOk(ns, i) && NodeIdentified(ns[i], next) && NodeIdentified(ns[i], last);
      var p := ns[i].parent;
      assert p.Some?;
      DistinctHashes(ns, p.value, top);
    }
  }

  lemma StepKeepsState(t0: Tree, b: Batch, last: Option<Header>, next: Header, net: Network, now: u32, mode: Mode)
    requires Core(t0) && Core(b.tree) && b.error.None? && BatchState(t0, b, last)
    requires AcceptOne(b.tree, next, net, now, mode).Accepted?
    requires last.Some? ==> next.prev == last.value.hash
    requires last.Some? && b.tree.tip != t0.tip ==> Lookup(b.tree.nodes, next.hash).None?
    ensures Core(Extend(b, next, net, now, mode).tree)
    ensures BatchState(t0, Extend(b, next, net, now, mode), Some(next))
  {
    var step := AcceptOne(b.tree, next, net, now, mode);
    AcceptOneKeeps(b.tree, next, net, now, mode);
    LinksTransitive(t0.nodes, b.tree.nodes, step.tree.nodes);
    if Added(b.tree, next, net, now, mode) {
      AddedHasWork(b.tree, next, net, now, mode);
      AddedState(t0, b, last, next, net, now, mode);
    }
  }

  /** How far an insertion moves the tip, and what it reports, in terms of the grown tree. */
  lemma AddedMoves(t: Tree, next: Header, net: Network, now: u32, mode: Mode) returns (grown: Tree)
    requires Core(t) && Added(t, next, net, now, mode)
    ensures var step := AcceptOne(t, next, net, now, mode);
            var top := |t.nodes|;
            && Core(grown) && Core(step.tree) && grown.tip == t.tip && |grown.nodes| == top + 1
            && SameLinks(t.nodes, grown.nodes) && SameLinks(grown.nodes, step.tree.nodes)
            && |step.tree.nodes| == top + 1 && step.tree.nodes[top].hash == next.hash
            && grown.nodes[top].header == next && !grown.nodes[top].status.Invalid?
            && grown.nodes[top].parent == (if t.nodes == [] then None else Lookup(t.nodes, next.prev))
            && step.tree.tip == (if WouldPublish(grown, top) then Some(top) else t.tip)
            && step.demotedTip == Displaced(grown, top)
  {
    var parent := HeaderParent(t.nodes, next).value;
    var node := NewNode(t.nodes, parent, next, next.hash, HeaderValid).value;
    grown := Tree(t.nodes + [node], t.tip);
    AppendedIsCore(t, parent, next, next.hash, HeaderValid);
    PublishKeepsCore(grown, |t.nodes|);
    AcceptOneKeeps(t, next, net, now, mode);
  }

  lemma AddedState(t0: Tree, b: Batch, last: Option<Header>, next: Header, net: Network, now: u32, mode: Mode)
    requires Core(t0) && Core(b.tree) && b.error.None? && BatchState(t0, b, last)
    requires Added(b.tree, next, net, now, mode) && Chain.BlockWork(next) >= 1
    requires last.Some? ==> next.prev == last.value.hash
    ensures Core(Extend(b, next, net, now, mode).tree)
    ensures BatchState(t0, Extend(b, next, net, now, mode), Some(next))
  {
    var t := b.tree;
    var step := AcceptOne(t, next, net, now, mode);
    var grown := AddedMoves(t, next, net, now, mode);
    var top := |t.nodes|;
    LinksTransitive(t.nodes, grown.nodes, step.tree.nodes);
    LinksTransitive(t0.nodes, t.nodes, step.tree.nodes);
    if t0.tip.Some? {
      AddedLeavesBehind(t0, t, grown, step.tree);
    }
    if t.tip != t0.tip {
      TipIsExtended(t, grown, next);
    }
  }

  /** The tip before the batch keeps its hash and its descendants as the tree grows. */
  lemma AddedLeavesBehind(t0: Tree, t: Tree, grown: Tree, t': Tree)
    requires Core(t0) && Core(t) && Core(grown) && Core(t') && t0.tip.Some? && |t'.nodes| == |grown.nodes|
    requires SameLinks(t0.nodes, t.nodes) && SameLinks(t.nodes, grown.nodes) && SameLinks(grown.nodes, t'.nodes)
    requires |grown.nodes| == |t.nodes| + 1
    ensures var pre, top := t0.tip.value, |t.nodes|;
            && t'.nodes[pre].hash == grown.nodes[pre].hash == t.nodes[pre].hash
            && (IsAncestor(t'.nodes, pre, top) <==> IsAncestor(grown.nodes, pre, top))
            && (t.tip.Some? ==> (IsAncestor(t'.nodes, pre, t.tip.value) <==> IsAncestor(t.nodes, pre, t.tip.value)))
            && (grown.nodes[top].parent.Some? && grown.nodes[top].parent == t.tip ==>
                  (IsAncestor(grown.nodes, pre, top) <==> IsAncestor(t.nodes, pre, t.tip.value)))
  {
    var pre, top := t0.tip.value, |t.nodes|;
    LinksTransitive(t.nodes, grown.nodes, t'.nodes);
    assert SameAt(t.nodes, grown.nodes, pre) && SameAt(grown.nodes, t'.nodes, pre);
    AncestorFrame(grown.nodes, t'.nodes, pre, top);
    if t.tip.Some? {
      AncestorFrame(t.nodes, t'.nodes, pre, t.tip.value);
      AncestorFrame(t.nodes, grown.nodes, pre, t.tip.value);
      AncestorOfParent(grown.nodes, pre, top);
    }
  }

  /** When the tip is the batch's newest node, the next header sits on it and is published. */
  lemma TipIsExtended(t: Tree, grown: Tree, next: Header)
    requires Core(t) && Core(grown) && grown.tip == t.tip && |grown.nodes| == |t.nodes| + 1
    requires SameLinks(t.nodes, grown.nodes) && t.nodes != [] && t.tip == Some(|t.nodes| - 1)
    requires t.nodes[|t.nodes| - 1].hash == next.prev && Chain.BlockWork(next) >= 1
    requires grown.nodes[|t.nodes|].header == next && !grown.nodes[|t.nodes|].status.Invalid?
    requires grown.nodes[|t.nodes|].parent == Lookup(t.nodes, next.prev)
    ensures WouldPublish(grown, |t.nodes|) && Displaced(grown, |t.nodes|).None?
    ensures grown.nodes[|t.nodes|].parent == t.tip
  {
    var top := |t.nodes|;
    LookupIs(t.nodes, top - 1);
    assert NodeOk(grown.nodes, top) && SameAt(t.nodes, grown.nodes, top - 1);
    AncestorOfParent(grown.nodes, t.tip.value, top);
  }

  lemma {:induction false} PrefixState(t0: Tree, headers: seq<Header>, k: nat, net: Network, now: u32, mode: Mode)
    requires Core(t0) && k <= |headers| && LinkedBatch(headers)
    requires HashesIdentify(t0.nodes, headers, net.genesisHash)
    requires AcceptAll(t0, headers[..k], net, now, mode).error.None?
    ensures BatchState(t0, AcceptAll(t0, headers[..k], net, now, mode), if k == 0 then None else Some(headers[k - 1]))
  {
    if k > 0 {
      var front, next := headers[..k - 1], headers[k - 1];
      assert headers[..k][..k - 1] == front;
      PrefixState(t0, headers, k - 1, net, now, mode);
      var before := AcceptAll(t0, front, net, now, mode);
      var last := if k == 1 then None else Some(headers[k - 2]);
      if k > 1 && before.tree.tip != t0.tip {
        IdentifyKept(t0, headers, k - 1, net, now, mode);
        ContinuationIsNew(t0, before, headers[k - 2], next);
      }
      StepKeepsState(t0, before, last, next, net, now, mode);
    } else {
      if t0.tip.Some? { MeetsAtSelf(t0.nodes, t0.tip.value, t0.tip.value); }
    }
  }

  /** For a linked batch, the tip it reports demoted is the one recomputed from its tree. */
  lemma DemotionIsRecomputable(t0: Tree, headers: seq<Header>, net: Network, now: u32, mode: Mode)
    requires Core(t0) && LinkedBatch(headers) && HashesIdentify(t0.nodes, headers, net.genesisHash)
    requires AcceptAll(t0, headers, net, now, mode).error.None?
    ensures var b := AcceptAll(t0, headers, net, now, mode);
            b.demotedTip == DemotedTipAfterRejection(b.tree, TipHash(t0))
  {
    assert headers[..|headers|] == headers;
    PrefixState(t0, headers, |headers|, net, now, mode);
    StateRecomputes(t0, AcceptAll(t0, headers, net, now, mode));
  }

  lemma StateRecomputes(t0: Tree, b: Batch)
    requires Core(t0) && Core(b.tree) && SameLinks(t0.nodes, b.tree.nodes)
    requires b.demotedTip == LeftBehind(b.tree, t0.tip)
    ensures b.demotedTip == DemotedTipAfterRejection(b.tree, TipHash(t0))
  {
    if t0.tip.Some? {
      var pre := t0.tip.value;
      assert SameAt(t0.nodes, b.tree.nodes, pre);
      LookupIs(b.tree.nodes, pre);
      if b.tree.tip.Some? {
        MeetsAtSelf(b.tree.nodes, pre, b.tree.tip.value);
        DistinctHashes(b.tree.nodes, pre, b.tree.tip.value);
      }
    }
  }

  /** After a rejection, the recomputed tip is what the accepted prefix alone would have reported. */
  lemma RejectionReportsPrefix(t0: Tree, headers: seq<Header>, net: Network, now: u32, mode: Mode)
    returns (k: nat)
    requires Core(t0) && LinkedBatch(headers) && HashesIdentify(t0.nodes, headers, net.genesisHash)
    requires AcceptAll(t0, headers, net, now, mode).error.Some?
    ensures k < |headers| && AcceptAll(t0, headers[..k], net, now, mode).error.None?
    ensures DemotedTipAfterRejection(AcceptAll(t0, headers, net, now, mode).tree, TipHash(t0))
            == AcceptAll(t0, headers[..k], net, now, mode).demotedTip
  {
    k := RejectionKeepsPrefix(t0, headers, net, now, mode);
    PrefixState(t0, headers, k, net, now, mode);
    StateRecomputes(t0, AcceptAll(t0, headers[..k], net, now, mode));
  }
}
