/** Which nodes carry the Active status, over every run. */
module StatusLaws {
  import opened Wrappers
  import opened Bounded
  import opened TxCounts
  import opened Chain
  import opened TreeModel

  predicate ActiveIsTip(t: Tree, i: nat)
    requires i < |t.nodes|
  {
    t.nodes[i].status.Active? <==> t.tip == Some(i)
  }

  ghost predicate OnlyTipActive(t: Tree) { forall i: nat :: i < |t.nodes| ==> ActiveIsTip(t, i) }

  /** Publishing moves the status from the old tip to the new one and touches no other node. */
  lemma PublishMovesActive(t: Tree, id: nat)
    requires Core(t) && id < |t.nodes|
    requires forall i: nat :: i < |t.nodes| && i != id ==> ActiveIsTip(t, i)
    requires !t.nodes[id].status.Active? || t.tip == Some(id) || t.tip.None?
    requires t.tip == Some(id) ==> t.nodes[id].status.Active?
    requires t.tip.None? ==> !t.nodes[id].status.Invalid?
    ensures OnlyTipActive(Publish(t, id))
  {
    var t' := Publish(t, id);
    forall i: nat | i < |t'.nodes| ensures ActiveIsTip(t', i) {
      assert i != id ==> ActiveIsTip(t, i);
    }
  }

  /** The node a placed header becomes is the tip. */
  predicate IsPublished(t: Tree, t': Tree) { t'.tip == Some(|t.nodes|) }

  predicate ParentInvalid(t: Tree, parent: Option<nat>) {
    parent.Some? && parent.value < |t.nodes| && t.nodes[parent.value].status.Invalid?
  }

  /** Unless it is published, an insertion leaves the tip and every earlier node as they were. */
  lemma UnpublishedIsAppended(t: Tree, parent: Option<nat>, header: Header, hash: Hash, status: Status)
    requires Core(t) && InsertUnder(t, parent, header, hash, status).Placed?
    requires !IsPublished(t, InsertUnder(t, parent, header, hash, status).tree)
    ensures var node := NewNode(t.nodes, parent, header, hash, status).value;
            InsertUnder(t, parent, header, hash, status).tree == Tree(t.nodes + [node], t.tip)
            && (node.status.Active? <==> status.Active? && !ParentInvalid(t, parent))
  {
  }

  lemma AppendedActiveIff(t: Tree, node: Node)
    requires OnlyTipActive(t) && (t.tip.Some? ==> t.tip.value < |t.nodes|)
    ensures OnlyTipActive(Tree(t.nodes + [node], t.tip)) <==> !node.status.Active?
  {
    var grown := Tree(t.nodes + [node], t.tip);
    forall i: nat | i < |t.nodes| ensures ActiveIsTip(grown, i) {
      assert ActiveIsTip(t, i);
    }
    assert ActiveIsTip(grown, |t.nodes|) <==> !node.status.Active?;
    if !node.status.Active? {
      forall i: nat | i < |grown.nodes| ensures ActiveIsTip(grown, i) {
      }
    }
  }

  lemma PublishedKeepsActive(t: Tree, parent: Option<nat>, header: Header, hash: Hash, status: Status)
    requires Core(t) && OnlyTipActive(t) && InsertUnder(t, parent, header, hash, status).Placed?
    requires IsPublished(t, InsertUnder(t, parent, header, hash, status).tree)
    ensures OnlyTipActive(InsertUnder(t, parent, header, hash, status).tree)
  {
    var node := NewNode(t.nodes, parent, header, hash, status).value;
    var grown, t' := Tree(t.nodes + [node], t.tip), InsertUnder(t, parent, header, hash, status).tree;
    assert WouldPublish(grown, |t.nodes|);
    forall i: nat | i < |t'.nodes| ensures ActiveIsTip(t', i) {
      assert i < |t.nodes| ==> ActiveIsTip(t, i);
    }
  }

  /** The work a header would have under a parent. */
  function WorkUnder(t: Tree, parent: Option<nat>, header: Header): nat {
    (if parent.Some? && parent.value < |t.nodes| then t.nodes[parent.value].chainwork else 0) + BlockWork(header)
  }

  /** A header under this parent would have more work than the tip, or there is no tip. */
  predicate BeatsTip(t: Tree, parent: Option<nat>, header: Header) {
    t.tip.Some? && t.tip.value < |t.nodes| ==> WorkUnder(t, parent, header) > t.nodes[t.tip.value].chainwork
  }

  lemma PublishedIff(t: Tree, parent: Option<nat>, header: Header, hash: Hash, status: Status)
    requires Core(t) && InsertUnder(t, parent, header, hash, status).Placed? && status.Active? && !ParentInvalid(t, parent)
    ensures IsPublished(t, InsertUnder(t, parent, header, hash, status).tree) <==> BeatsTip(t, parent, header)
  {
  }

  /** What an insertion must satisfy, read off the tree before it: an Active node beats the tip or is born Invalid. */
  predicate MayActivate(t: Tree, parent: Option<nat>, header: Header, status: Status) {
    !status.Active? || ParentInvalid(t, parent) || BeatsTip(t, parent, header)
  }

  /**
   One insertion keeps the tip the only Active node exactly when it is not inserted as Active, its
   parent is Invalid, or its work beats the tip's.
   */
  lemma InsertKeepsActiveIff(t: Tree, parent: Option<nat>, header: Header, hash: Hash, status: Status)
    requires Core(t) && OnlyTipActive(t) && InsertUnder(t, parent, header, hash, status).Placed?
    ensures OnlyTipActive(InsertUnder(t, parent, header, hash, status).tree) <==> MayActivate(t, parent, header, status)
  {
    if IsPublished(t, InsertUnder(t, parent, header, hash, status).tree) {
      PublishedKeepsActive(t, parent, header, hash, status);
    } else {
      UnpublishedIsAppended(t, parent, header, hash, status);
      AppendedActiveIff(t, NewNode(t.nodes, parent, header, hash, status).value);
    }
    if status.Active? && !ParentInvalid(t, parent) {
      PublishedIff(t, parent, header, hash, status);
    }
  }

  lemma InvalidateKeepsActive(t: Tree, root: nat)
    requires Inv(t) && OnlyTipActive(t) && root < |t.nodes|
    ensures OnlyTipActive(Invalidate(t, root))
  {
    TipSurvives(t, root);
    MarkKeeps(t.nodes, root);
    var marked := Tree(MarkInvalid(t.nodes, root), None);
    var best := Best(marked.nodes);
    forall i: nat | i < |marked.nodes| && best != Some(i) ensures ActiveIsTip(marked, i) {
      assert ActiveIsTip(t, i);
    }
    if best.Some? {
      PublishMovesActive(marked, best.value);
    }
  }

  /** Whatever the change inserts as Active, if it is not refused, beats the tip or lands below an Invalid node. */
  predicate ActivatesTip(t: Tree, change: Change) {
    match change
    case InsertNode(parent, header, hash, status) =>
      NewNode(t.nodes, parent, header, hash, status).Ok? ==> MayActivate(t, parent, header, status)
    case InsertHeader(header, hash, status) =>
      var parent := HeaderParent(t.nodes, header);
      parent.Ok? && NewNode(t.nodes, parent.value, header, hash, status).Ok? ==>
        MayActivate(t, parent.value, header, status)
    case _ => true
  }

  lemma ApplyKeepsActive(t: Tree, change: Change)
    requires Inv(t) && OnlyTipActive(t) && ActivatesTip(t, change)
    ensures OnlyTipActive(Apply(t, change))
  {
    match change
    case InsertNode(parent, header, hash, status) =>
      if InsertUnder(t, parent, header, hash, status).Placed? {
        InsertKeepsActiveIff(t, parent, header, hash, status);
      }
    case InsertHeader(header, hash, status) =>
      if InsertByPrev(t, header, hash, status).Placed? {
        InsertKeepsActiveIff(t, HeaderParent(t.nodes, header).value, header, hash, status);
      }
    case InvalidateSubtree(root) =>
      if root < |t.nodes| { InvalidateKeepsActive(t, root); }
    case _ =>
      forall i: nat | i < |t.nodes| ensures ActiveIsTip(Apply(t, change), i) {
        assert ActiveIsTip(t, i);
      }
  }

  /** Every insertion of a run meets that condition when it happens. */
  ghost predicate ActivatesOnlyTips(changes: seq<Change>) {
    forall k: nat :: k < |changes| ==> ActivatesTip(Run(changes[..k]), changes[k])
  }

  /** After every such run exactly the tip is Active. Header admission inserts nothing as Active, so its runs qualify. */
  lemma {:induction false} EveryRunActivatesOnlyTheTip(changes: seq<Change>)
    requires ActivatesOnlyTips(changes)
    ensures OnlyTipActive(Run(changes))
  {
    if changes != [] {
      var last := |changes| - 1;
      var front := changes[..last];
      forall k: nat | k < last ensures ActivatesTip(Run(front[..k]), front[k]) {
        assert front[..k] == changes[..k];
        assert ActivatesTip(Run(changes[..k]), changes[k]);
      }
      EveryRunActivatesOnlyTheTip(front);
      assert ActivatesTip(Run(changes[..last]), changes[last]);
      ApplyKeepsActive(Run(front), changes[last]);
    }
  }

  // ---- Without that condition ----

  predicate TipActive(t: Tree) { t.tip.Some? ==> t.tip.value < |t.nodes| && t.nodes[t.tip.value].status.Active? }

  lemma ApplyKeepsTipActive(t: Tree, change: Change)
    requires Inv(t) && TipActive(t)
    ensures TipActive(Apply(t, change))
  {
    if change.InvalidateSubtree? && change.root < |t.nodes| {
      TipSurvives(t, change.root);
    }
  }

  /** Whatever is inserted, the tip itself is Active after every run. */
  lemma {:induction false} EveryRunActivatesTheTip(changes: seq<Change>)
    ensures TipActive(Run(changes))
  {
    if changes != [] {
      EveryRunActivatesTheTip(changes[..|changes| - 1]);
      ApplyKeepsTipActive(Run(changes[..|changes| - 1]), changes[|changes| - 1]);
    }
  }

  function Child(prev: Hash, hash: Hash, bits: u32): Header { Header(1, prev, 0, bits, hash) }

  /** A root and one child, which is the tip. */
  ghost predicate RootAndChild(t: Tree, bits: u32) {
    && Inv(t) && OnlyTipActive(t) && |t.nodes| == 2 && t.tip == Some(1)
    && t.nodes[0].hash == 1 && t.nodes[1].hash == 2 && !t.nodes[0].status.Invalid? && t.nodes[0].height == 0
    && t.nodes[0].chainwork == BlockWork(Child(0, 1, bits)) && t.nodes[1].chainwork == 2 * BlockWork(Child(0, 1, bits))
  }

  function TwoHeaders(bits: u32): seq<Change> {
    [] + [InsertHeader(Child(0, 1, bits), 1, HeaderValid)] + [InsertHeader(Child(1, 2, bits), 2, HeaderValid)]
  }

  lemma RunExtends(changes: seq<Change>, change: Change)
    ensures Run(changes + [change]) == Apply(Run(changes), change)
  {
    assert (changes + [change])[..|changes|] == changes;
  }

  lemma RootInserted(bits: u32)
    ensures var t := Run([] + [InsertHeader(Child(0, 1, bits), 1, HeaderValid)]);
            t == Tree([Node(None, 0, 1, Child(0, 1, bits), BlockWork(Child(0, 1, bits)), Unknown, Active)], Some(0))
  {
    RunExtends([], InsertHeader(Child(0, 1, bits), 1, HeaderValid));
  }

  lemma ChildInserted(bits: u32)
    requires 1 <= BlockWork(Child(0, 1, bits)) && 2 * BlockWork(Child(0, 1, bits)) < U256_LIMIT
    ensures RootAndChild(Run(TwoHeaders(bits)), bits)
  {
    var change := InsertHeader(Child(1, 2, bits), 2, HeaderValid);
    RootInserted(bits);
    var t := Run([] + [InsertHeader(Child(0, 1, bits), 1, HeaderValid)]);
    RunExtends([] + [InsertHeader(Child(0, 1, bits), 1, HeaderValid)], change);
    LookupIs(t.nodes, 0);
    assert OnlyTipActive(t) by { assert ActiveIsTip(t, 0); }
    ApplyKeepsActive(t, change);
  }

  lemma SideInsertion(t: Tree, bits: u32)
    requires RootAndChild(t, bits) && 1 <= BlockWork(Child(0, 1, bits)) && 3 * BlockWork(Child(0, 1, bits)) < U256_LIMIT
    ensures var t' := Apply(t, InsertHeader(Child(1, 3, bits), 3, Active)); t'.tip == Some(1) && !OnlyTipActive(t')
  {
    LookupIs(t.nodes, 0);
    var header := Child(1, 3, bits);
    assert HeaderParent(t.nodes, header) == Ok(Some(0));
    assert NewNode(t.nodes, Some(0), header, 3, Active).Ok?;
    InsertKeepsActiveIff(t, Some(0), header, 3, Active);
  }

  /** A second child of equal work, inserted as Active like the header of a connected block, stays Active. */
  lemma SideBlockStaysActive(bits: u32)
    requires 1 <= BlockWork(Child(0, 1, bits)) && 3 * BlockWork(Child(0, 1, bits)) < U256_LIMIT
    ensures var t := Run(TwoHeaders(bits) + [InsertHeader(Child(1, 3, bits), 3, Active)]);
            t.tip == Some(1) && !OnlyTipActive(t)
  {
    ChildInserted(bits);
    RunExtends(TwoHeaders(bits), InsertHeader(Child(1, 3, bits), 3, Active));
    SideInsertion(Run(TwoHeaders(bits)), bits);
  }
}
