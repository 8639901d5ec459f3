/** Trees grown over a node's whole life: batches at different times, invalidations and counts. */
module ChainRuns {
  import opened Bounded
  import opened TxCounts
  import opened Work
  import opened Chain
  import opened TreeModel
  import opened MedianTime
  import opened Admission
  import opened AdmissionLaws
  import Replay

  /** One thing that happens to the tree; every batch has its own clock and mode. */
  datatype Event =
    | Accept(headers: seq<Header>, now: u32, mode: Mode)
    | Invalidated(root: nat)
    | Counted(id: nat, blockCount: u64)
    | Recounted(id: nat, count: ChainTxCount)

  ghost function React(t: Tree, net: Network, event: Event): Tree
    requires Inv(t)
  {
    match event
    case Accept(headers, now, mode) => AcceptAll(t, headers, net, now, mode).tree
    case Invalidated(root) => Apply(t, InvalidateSubtree(root))
    case Counted(id, blockCount) => Apply(t, RecordCount(id, blockCount))
    case Recounted(id, count) => Apply(t, RestoreCount(id, count))
  }

  lemma ReactKeepsInv(t: Tree, net: Network, event: Event)
    requires Inv(t)
    ensures Inv(React(t, net, event)) && SameLinks(t.nodes, React(t, net, event).nodes)
    ensures !event.Accept? ==> |React(t, net, event).nodes| == |t.nodes|
  {
    match event
    case Accept(headers, now, mode) => AcceptAllKeeps(t, headers, net, now, mode);
    case Invalidated(root) => if root < |t.nodes| { InvalidateKeepsInv(t, root); }
    case Counted(id, blockCount) => ApplyKeepsInv(t, RecordCount(id, blockCount));
    case Recounted(id, count) => ApplyKeepsInv(t, RestoreCount(id, count));
  }

  /** The tree after a whole run of events from the empty one. */
  ghost function Grow(net: Network, events: seq<Event>): (t: Tree)
    ensures Inv(t)
  {
    if events == [] then EMPTY
    else
      var before := Grow(net, events[..|events| - 1]);
      ReactKeepsInv(before, net, events[|events| - 1]);
      React(before, net, events[|events| - 1])
  }

  lemma RelabelKeepsTransitions(ns: seq<Node>, ns': seq<Node>, rules: PowRules)
    requires Linked(ns) && Linked(ns') && SameLinks(ns, ns') && |ns| == |ns'| && TransitionsPermitted(ns, rules)
    ensures TransitionsPermitted(ns', rules)
  {
    forall i: nat | i < |ns'| ensures TransitionPermittedAt(ns', rules, i) {
      TransitionFrame(ns, ns', rules, i);
    }
  }

  lemma RelabelKeepsTimes(ns: seq<Node>, ns': seq<Node>)
    requires Linked(ns) && Linked(ns') && SameLinks(ns, ns') && |ns| == |ns'| && TimesAboveMedian(ns)
    ensures TimesAboveMedian(ns')
  {
    forall i: nat | i < |ns'| ensures TimeAboveMedian(ns', i) {
      assert TimeAboveMedian(ns, i);
      TimeFrame(ns, ns', i);
    }
  }

  /** After every run each header is a permitted difficulty transition from its parent. */
  lemma {:induction false} EveryRunIsPermitted(net: Network, events: seq<Event>)
    requires TransitionsAreBounded(net.pow)
    ensures TransitionsPermitted(Grow(net, events).nodes, net.pow)
  {
    if events != [] {
      var front, last := events[..|events| - 1], events[|events| - 1];
      EveryRunIsPermitted(net, front);
      var before := Grow(net, front);
      ReactKeepsInv(before, net, last);
      if last.Accept? {
        BatchKeepsTransitions(before, last.headers, net, last.now, last.mode);
      } else {
        RelabelKeepsTransitions(before.nodes, React(before, net, last).nodes, net.pow);
      }
    }
  }

  /** In particular on every network the node knows. */
  lemma KnownNetworksArePermitted(net: Network, events: seq<Event>)
    requires IsKnownNetwork(net.pow)
    ensures TransitionsPermitted(Grow(net, events).nodes, net.pow)
  {
    KnownNetworksAreBounded(net.pow);
    EveryRunIsPermitted(net, events);
  }

  /** After every run each header is later than the median time past of its parent. */
  lemma {:induction false} EveryRunIsLater(net: Network, events: seq<Event>)
    ensures TimesAboveMedian(Grow(net, events).nodes)
  {
    if events != [] {
      var front, last := events[..|events| - 1], events[|events| - 1];
      EveryRunIsLater(net, front);
      var before := Grow(net, front);
      ReactKeepsInv(before, net, last);
      if last.Accept? {
        BatchKeepsTimes(before, last.headers, net, last.now, last.mode);
      } else {
        RelabelKeepsTimes(before.nodes, React(before, net, last).nodes);
      }
    }
  }

  /** After every run the median time past does not decrease from an ancestor to a descendant. */
  lemma MedianNeverFalls(net: Network, events: seq<Event>, a: nat, i: nat)
    requires i < |Grow(net, events).nodes| && IsAncestor(Grow(net, events).nodes, a, i)
    ensures var ns := Grow(net, events).nodes; MedianTimePast(ns, a) <= MedianTimePast(ns, i)
  {
    EveryRunIsLater(net, events);
    MedianNeverDecreases(Grow(net, events).nodes, a, i);
  }

  // ---- Work ----

  predicate HasWork(ns: seq<Node>, i: nat)
    requires i < |ns|
  {
    Chain.BlockWork(ns[i].header) >= 1
  }

  ghost predicate AllHaveWork(ns: seq<Node>) { forall i: nat :: i < |ns| ==> HasWork(ns, i) }

  lemma WorkFrame(ns: seq<Node>, ns': seq<Node>)
    requires SameLinks(ns, ns') && |ns| <= |ns'| && AllHaveWork(ns)
    ensures forall i: nat :: i < |ns| ==> HasWork(ns', i)
  {
    forall i: nat | i < |ns| ensures HasWork(ns', i) {
      assert HasWork(ns, i) && SameAt(ns, ns', i);
    }
  }

  lemma AddedKeepsWork(t: Tree, header: Header, net: Network, now: u32, mode: Mode)
    requires Core(t) && AllHaveWork(t.nodes) && Added(t, header, net, now, mode)
    ensures AllHaveWork(AcceptOne(t, header, net, now, mode).tree.nodes)
  {
    AcceptOneKeeps(t, header, net, now, mode);
    AddedHasWork(t, header, net, now, mode);
    WorkFrame(t.nodes, AcceptOne(t, header, net, now, mode).tree.nodes);
  }

  lemma {:induction false} BatchKeepsWork(t: Tree, headers: seq<Header>, net: Network, now: u32, mode: Mode)
    requires Core(t) && AllHaveWork(t.nodes)
    ensures AllHaveWork(AcceptAll(t, headers, net, now, mode).tree.nodes)
  {
    if headers != [] {
      var front, last := headers[..|headers| - 1], headers[|headers| - 1];
      BatchKeepsWork(t, front, net, now, mode);
      var before := AcceptAll(t, front, net, now, mode).tree;
      AcceptOneKeeps(before, last, net, now, mode);
      if Added(before, last, net, now, mode) {
        AddedKeepsWork(before, last, net, now, mode);
      }
    }
  }

  /** After every run each header adds at least one unit of work. */
  lemma {:induction false} EveryRunHasWork(net: Network, events: seq<Event>)
    ensures AllHaveWork(Grow(net, events).nodes)
  {
    if events != [] {
      var front, last := events[..|events| - 1], events[|events| - 1];
      EveryRunHasWork(net, front);
      var before := Grow(net, front);
      ReactKeepsInv(before, net, last);
      if last.Accept? {
        BatchKeepsWork(before, last.headers, net, last.now, last.mode);
      } else {
        WorkFrame(before.nodes, React(before, net, last).nodes);
      }
    }
  }

  /** So saving a grown tree for any of its nodes as tip, and rebuilding it, elects that node. */
  lemma EveryGrownTipIsRestored(net: Network, events: seq<Event>, tip: nat)
    requires tip < |Grow(net, events).nodes|
    ensures Replay.SameTip(Grow(net, events).nodes, tip)
  {
    EveryRunHasWork(net, events);
    assert HasWork(Grow(net, events).nodes, tip);
    Replay.ReplayRestoresTip(Grow(net, events).nodes, tip);
  }
}
