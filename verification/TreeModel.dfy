/**
 The block tree as a value: its nodes and the elected tip. Every change the node makes to a
 tree is a function here, and the laws of tip election hold over every run of them.
 */
module TreeModel {
  import opened Wrappers
  import opened Bounded
  import opened TxCounts
  import opened Chain

  datatype Tree = Tree(nodes: seq<Node>, tip: Option<nat>)

  datatype ChainError =
    | UnknownNode(id: nat)
    | DuplicateHeader(hash: Hash)
    | KnownInvalidHeader(hash: Hash)
    | MissingParent(prev: Hash)
    | InvalidParent(parent: nat)
    | BadVersion(version: int, required: int, height: u32)
    | TimewarpAttack(height: u32, timestamp: u32, minimum: u32)
    | NonContinuousHeader(expectedPrev: Hash, actualPrev: Hash)
    | ZeroTarget(hash: Hash)
    | TargetExceedsLimit(hash: Hash, target: u256, maxTarget: u256)
    | TargetBitsOverflow(bits: u32)
    | InvalidPow(hash: Hash, target: u256)
    | NbitsMismatch(actualBits: u32, expectedBits: u32, height: u32)
    | ChainworkOverflow(hash: Hash)
    | HeightOverflow(parent: nat)
    | NoCommonAncestor(oldTip: nat, newTip: nat)
    | TimestampTooEarly(hash: Hash, timestamp: u32, median: u32)
    | TimestampTooFarAhead(hash: Hash, timestamp: u32, maxAllowed: u32)

  // ---- Invariants ----

  ghost predicate UniqueHashes(ns: seq<Node>) {
    forall i: nat, j: nat :: i < |ns| && j < |ns| ==> HashesDiffer(ns, i, j)
  }

  predicate HashesDiffer(ns: seq<Node>, i: nat, j: nat)
    requires i < |ns| && j < |ns|
  {
    i != j ==> ns[i].hash != ns[j].hash
  }

  /** `i` is preferred to `j`: more work, and among equals the earlier insertion. */
  predicate Beats(ns: seq<Node>, i: nat, j: nat)
    requires i < |ns| && j < |ns|
  {
    ns[i].chainwork > ns[j].chainwork || (ns[i].chainwork == ns[j].chainwork && i <= j)
  }

  /** The tip is the valid node preferred to all valid ones; there is none only without them. */
  ghost predicate TipIsBest(ns: seq<Node>, tip: Option<nat>) {
    match tip
    case None => forall j :: 0 <= j < |ns| ==> ns[j].status.Invalid?
    case Some(t) =>
      && t < |ns| && !ns[t].status.Invalid?
      && forall j: nat :: j < |ns| ==> Preferred(ns, t, j)
  }

  predicate Preferred(ns: seq<Node>, t: nat, j: nat)
    requires t < |ns| && j < |ns|
  {
    !ns[j].status.Invalid? ==> Beats(ns, t, j)
  }

  /** What holds between any two changes, before asking which tip is elected. */
  ghost predicate Core(t: Tree) {
    && Linked(t.nodes) && UniqueHashes(t.nodes)
    && (t.tip.Some? ==> t.tip.value < |t.nodes| && !t.nodes[t.tip.value].status.Invalid?)
  }

  ghost predicate Inv(t: Tree) {
    Core(t) && TipIsBest(t.nodes, t.tip)
  }

  lemma BestIsUnique(ns: seq<Node>, a: Option<nat>, b: Option<nat>)
    requires TipIsBest(ns, a) && TipIsBest(ns, b)
    ensures a == b
  {
    if a.Some? && b.Some? {
      assert Preferred(ns, a.value, b.value) && Preferred(ns, b.value, a.value);
    }
  }

  lemma UniqueFrame(ns: seq<Node>, ns': seq<Node>)
    requires UniqueHashes(ns) && SameLinks(ns, ns') && |ns| == |ns'|
    ensures UniqueHashes(ns')
  {
    forall i: nat, j: nat | i < |ns| && j < |ns|
      ensures HashesDiffer(ns', i, j)
    {
      assert HashesDiffer(ns, i, j) && SameAt(ns, ns', i) && SameAt(ns, ns', j);
    }
  }

  lemma DistinctHashes(ns: seq<Node>, i: nat, j: nat)
    requires UniqueHashes(ns) && i < |ns| && j < |ns|
    ensures ns[i].hash == ns[j].hash <==> i == j
  {
    assert HashesDiffer(ns, i, j);
  }

  ghost predicate SameValidity(ns: seq<Node>, ns': seq<Node>) {
    |ns| == |ns'| && forall i: nat :: i < |ns| ==> (ns[i].status.Invalid? <==> ns'[i].status.Invalid?)
  }

  lemma BestFrame(ns: seq<Node>, ns': seq<Node>, tip: Option<nat>)
    requires TipIsBest(ns, tip) && SameLinks(ns, ns') && SameValidity(ns, ns')
    ensures TipIsBest(ns', tip)
  {
    if tip.Some? {
      forall j: nat | j < |ns|
        ensures Preferred(ns', tip.value, j)
      {
        assert Preferred(ns, tip.value, j) && SameAt(ns, ns', j) && SameAt(ns, ns', tip.value);
      }
    }
  }

  /** The most preferred valid node, by one pass in insertion order. */
  function Best(ns: seq<Node>): (best: Option<nat>)
    ensures TipIsBest(ns, best)
  {
    if ns == [] then None
    else
      var last := |ns| - 1;
      var best := Best(ns[..last]);
      BestOfExtended(ns, best);
      if ns[last].status.Invalid? then best
      else if best.None? || ns[last].chainwork > ns[best.value].chainwork then Some(last)
      else best
  }

  lemma BestOfExtended(ns: seq<Node>, best: Option<nat>)
    requires ns != [] && TipIsBest(ns[..|ns| - 1], best)
    ensures var last := |ns| - 1;
            TipIsBest(ns, if ns[last].status.Invalid? then best
                          else if best.None? || ns[last].chainwork > ns[best.value].chainwork then Some(last)
                          else best)
  {
    var last := |ns| - 1;
    var front := ns[..last];
    assert forall j: nat :: j < last ==> front[j] == ns[j];
    var best' := if ns[last].status.Invalid? then best
                 else if best.None? || ns[last].chainwork > ns[best.value].chainwork then Some(last)
                 else best;
    forall j: nat | j < |ns| && best'.Some?
      ensures Preferred(ns, best'.value, j)
    {
      if j < last && best.Some? { assert Preferred(front, best.value, j); }
    }
  }

  function Lookup(ns: seq<Node>, hash: Hash): (id: Option<nat>)
    ensures match id
            case None => forall i :: 0 <= i < |ns| ==> ns[i].hash != hash
            case Some(i) => i < |ns| && ns[i].hash == hash
  {
    if ns == [] then None
    else if ns[|ns| - 1].hash == hash then Some(|ns| - 1)
    else Lookup(ns[..|ns| - 1], hash)
  }

  lemma LookupIs(ns: seq<Node>, i: nat)
    requires UniqueHashes(ns) && i < |ns|
    ensures Lookup(ns, ns[i].hash) == Some(i)
  {
    assert HashesDiffer(ns, i, Lookup(ns, ns[i].hash).value);
  }

  // ---- Publishing ----

  function SetStatus(ns: seq<Node>, i: nat, status: Status): seq<Node>
    requires i < |ns|
  {
    ns[i := ns[i].(status := status)]
  }

  predicate WouldPublish(t: Tree, id: nat)
    requires id < |t.nodes| && (t.tip.Some? ==> t.tip.value < |t.nodes|)
  {
    !t.nodes[id].status.Invalid?
    && (t.tip.None? || t.nodes[id].chainwork > t.nodes[t.tip.value].chainwork)
  }

  function Publish(t: Tree, id: nat): Tree
    requires id < |t.nodes| && (t.tip.Some? ==> t.tip.value < |t.nodes|)
  {
    if !WouldPublish(t, id) then t
    else
      var retired := if t.tip.Some? && t.tip.value != id
                     then SetStatus(t.nodes, t.tip.value, Stale) else t.nodes;
      Tree(SetStatus(retired, id, Active), Some(id))
  }

  /** The tip a publication displaces: one the new tip does not extend. */
  function Displaced(t: Tree, id: nat): Option<Hash>
    requires Core(t) && id < |t.nodes|
  {
    if WouldPublish(t, id) && t.tip.Some? && !IsAncestor(t.nodes, t.tip.value, id)
    then Some(t.nodes[t.tip.value].hash) else None
  }

  /** Changing a valid node to another valid status disturbs nothing but that status. */
  lemma RestatusKeeps(ns: seq<Node>, i: nat, status: Status)
    requires Linked(ns) && UniqueHashes(ns) && i < |ns|
    requires !ns[i].status.Invalid? && !status.Invalid?
    ensures var ns' := SetStatus(ns, i, status);
            Linked(ns') && UniqueHashes(ns') && SameLinks(ns, ns') && SameLinks(ns', ns)
  {
    var ns' := SetStatus(ns, i, status);
    forall k: nat | k < |ns'|
      ensures NodeOk(ns', k)
    {
      assert NodeOk(ns, k);
    }
    UniqueFrame(ns, ns');
  }

  lemma PublishKeepsCore(t: Tree, id: nat)
    requires Core(t) && id < |t.nodes|
    ensures Core(Publish(t, id))
    ensures SameLinks(t.nodes, Publish(t, id).nodes) && SameLinks(Publish(t, id).nodes, t.nodes)
    ensures SameValidity(t.nodes, Publish(t, id).nodes)
  {
    if WouldPublish(t, id) {
      if t.tip.Some? && t.tip.value != id {
        RestatusKeeps(t.nodes, t.tip.value, Stale);
        RestatusKeeps(SetStatus(t.nodes, t.tip.value, Stale), id, Active);
      } else {
        RestatusKeeps(t.nodes, id, Active);
      }
    }
  }

  // ---- Insertion ----

  /** The node a header becomes under a parent, or why it is refused. */
  function NewNode(ns: seq<Node>, parent: Option<nat>, header: Header, hash: Hash, status: Status)
    : Result<Node, ChainError>
  {
    if Lookup(ns, hash).Some? then Err(DuplicateHeader(hash))
    else match parent
      case None => Ok(Node(None, 0, hash, header, BlockWork(header), Unknown, status))
      case Some(p) =>
        if p >= |ns| then Err(UnknownNode(p))
        else if header.prev != ns[p].hash then Err(NonContinuousHeader(ns[p].hash, header.prev))
        else if ns[p].height + 1 > U32_MAX then Err(HeightOverflow(p))
        else if ns[p].chainwork + BlockWork(header) >= U256_LIMIT then Err(ChainworkOverflow(hash))
        else Ok(Node(parent, ns[p].height + 1, hash, header, ns[p].chainwork + BlockWork(header), Unknown,
                     if ns[p].status.Invalid? then Invalid else status))
  }

  datatype Insertion =
    | Refused(error: ChainError)
    | Placed(tree: Tree, id: nat, demotedTip: Option<Hash>)

  /** Appends a header under a given parent and publishes it when it is best. */
  function InsertUnder(t: Tree, parent: Option<nat>, header: Header, hash: Hash, status: Status): Insertion
    requires Core(t)
  {
    match NewNode(t.nodes, parent, header, hash, status)
    case Err(e) => Refused(e)
    case Ok(node) =>
      AppendedIsCore(t, parent, header, hash, status);
      var grown := Tree(t.nodes + [node], t.tip);
      Placed(Publish(grown, |t.nodes|), |t.nodes|, Displaced(grown, |t.nodes|))
  }

  /** The parent a bare header links to; the first header becomes the root. */
  function HeaderParent(ns: seq<Node>, header: Header): Result<Option<nat>, ChainError> {
    if ns == [] then Ok(None)
    else match Lookup(ns, header.prev)
      case None => Err(MissingParent(header.prev))
      case Some(p) => Ok(Some(p))
  }

  function InsertByPrev(t: Tree, header: Header, hash: Hash, status: Status): Insertion
    requires Core(t)
  {
    match HeaderParent(t.nodes, header)
    case Err(e) => Refused(e)
    case Ok(parent) => InsertUnder(t, parent, header, hash, status)
  }

  lemma AppendedIsCore(t: Tree, parent: Option<nat>, header: Header, hash: Hash, status: Status)
    requires Core(t) && NewNode(t.nodes, parent, header, hash, status).Ok?
    ensures var node := NewNode(t.nodes, parent, header, hash, status).value;
            Core(Tree(t.nodes + [node], t.tip)) && SameLinks(t.nodes, t.nodes + [node])
  {
    var node := NewNode(t.nodes, parent, header, hash, status).value;
    var ns' := t.nodes + [node];
    forall k: nat | k < |ns'|
      ensures NodeOk(ns', k)
    {
      if k < |t.nodes| { assert NodeOk(t.nodes, k); }
    }
    forall i: nat, j: nat | i < |ns'| && j < |ns'|
      ensures HashesDiffer(ns', i, j)
    {
      if i < |t.nodes| && j < |t.nodes| { assert HashesDiffer(t.nodes, i, j); }
    }
  }

  /** An insertion keeps every invariant, and the tip changes only to the new node. */
  lemma InsertKeepsInv(t: Tree, parent: Option<nat>, header: Header, hash: Hash, status: Status)
    requires Core(t) && InsertUnder(t, parent, header, hash, status).Placed?
    ensures var t' := InsertUnder(t, parent, header, hash, status).tree;
            var node := NewNode(t.nodes, parent, header, hash, status).value;
            && Core(t') && SameLinks(t.nodes, t'.nodes)
            && |t'.nodes| == |t.nodes| + 1 && SameNode(node, t'.nodes[|t.nodes|])
            && (forall i :: 0 <= i < |t.nodes| ==> (t.nodes[i].status.Invalid? <==> t'.nodes[i].status.Invalid?))
            && (t'.nodes[|t.nodes|].status.Invalid? <==> node.status.Invalid?)
            && (TipIsBest(t.nodes, t.tip) ==> Inv(t'))
            && (t'.tip == t.tip || t'.tip == Some(|t.nodes|))
  {
    var node := NewNode(t.nodes, parent, header, hash, status).value;
    var grown := Tree(t.nodes + [node], t.tip);
    AppendedIsCore(t, parent, header, hash, status);
    PublishKeepsCore(grown, |t.nodes|);
    var t' := Publish(grown, |t.nodes|);
    forall i: nat | i < |t.nodes|
      ensures SameNode(t.nodes[i], t'.nodes[i]) && (t.nodes[i].status.Invalid? <==> t'.nodes[i].status.Invalid?)
    {
      assert SameAt(grown.nodes, t'.nodes, i) && grown.nodes[i] == t.nodes[i];
    }
    assert grown.nodes[|t.nodes|] == node;
    if TipIsBest(t.nodes, t.tip) {
      AppendElects(t, node, t');
    }
  }

  lemma AppendElects(t: Tree, node: Node, t': Tree)
    requires TipIsBest(t.nodes, t.tip) && t' == Publish(Tree(t.nodes + [node], t.tip), |t.nodes|)
    requires |t'.nodes| == |t.nodes| + 1
    requires forall i: nat :: i < |t.nodes| ==>
               SameNode(t.nodes[i], t'.nodes[i]) && (t.nodes[i].status.Invalid? <==> t'.nodes[i].status.Invalid?)
    ensures TipIsBest(t'.nodes, t'.tip)
  {
    var last := |t.nodes|;
    assert SameNode(node, t'.nodes[last]);
    if t'.tip.Some? {
      var best := t'.tip.value;
      forall j: nat | j < |t'.nodes|
        ensures Preferred(t'.nodes, best, j)
      {
        if t.tip.Some? && j < last { assert Preferred(t.nodes, t.tip.value, j); }
      }
    }
  }

  // ---- Invalidation ----

  ghost function MarkInvalid(ns: seq<Node>, root: nat): (ns': seq<Node>)
    requires Linked(ns) && root < |ns|
    ensures |ns'| == |ns|
    ensures forall i :: 0 <= i < |ns| ==>
              ns'[i] == if IsAncestor(ns, root, i) then ns[i].(status := Invalid) else ns[i]
  {
    seq(|ns|, i requires 0 <= i < |ns| =>
      if IsAncestor(ns, root, i) then ns[i].(status := Invalid) else ns[i])
  }

  /** Whether the old tip is left valid but no longer preferred. */
  ghost predicate TipIsRetired(t: Tree, root: nat)
    requires Core(t) && root < |t.nodes|
  {
    var best := Best(MarkInvalid(t.nodes, root));
    t.tip.Some? && best.Some? && best != t.tip && !IsAncestor(t.nodes, root, t.tip.value)
  }

  /** The tree after a subtree and its descendants are marked invalid and a tip re-elected. */
  ghost function Invalidate(t: Tree, root: nat): Tree
    requires Core(t) && root < |t.nodes|
  {
    var best := Best(MarkInvalid(t.nodes, root));
    var retired := if TipIsRetired(t, root) then SetStatus(t.nodes, t.tip.value, Stale) else t.nodes;
    RetireKeeps(t, root);
    var marked := MarkInvalid(retired, root);
    if best.None? then Tree(marked, None) else Publish(Tree(marked, None), best.value)
  }

  lemma RetireKeeps(t: Tree, root: nat)
    requires Core(t) && root < |t.nodes|
    ensures TipIsRetired(t, root) ==>
              var ns' := SetStatus(t.nodes, t.tip.value, Stale);
              Linked(ns') && UniqueHashes(ns') && SameLinks(t.nodes, ns') && SameValidity(t.nodes, ns')
  {
    if TipIsRetired(t, root) {
      RestatusKeeps(t.nodes, t.tip.value, Stale);
    }
  }

  ghost function DemotedByInvalidation(t: Tree, root: nat): Option<Hash>
    requires Core(t) && root < |t.nodes|
  {
    if TipIsRetired(t, root) && !IsAncestor(t.nodes, t.tip.value, Best(MarkInvalid(t.nodes, root)).value)
    then Some(t.nodes[t.tip.value].hash) else None
  }

  lemma MarkKeeps(ns: seq<Node>, root: nat)
    requires Linked(ns) && UniqueHashes(ns) && root < |ns|
    ensures var ns' := MarkInvalid(ns, root);
            Linked(ns') && UniqueHashes(ns') && SameLinks(ns, ns') && SameLinks(ns', ns)
  {
    var ns' := MarkInvalid(ns, root);
    forall k: nat | k < |ns|
      ensures NodeOk(ns', k)
    {
      assert NodeOk(ns, k);
      AncestorOfParent(ns, root, k);
    }
    UniqueFrame(ns, ns');
  }

  /** A valid tip outside the subtree stays preferred, so it is elected again. */
  lemma TipSurvives(t: Tree, root: nat)
    requires Inv(t) && root < |t.nodes|
    ensures !TipIsRetired(t, root)
    ensures t.tip.Some? && !IsAncestor(t.nodes, root, t.tip.value) ==>
              Best(MarkInvalid(t.nodes, root)) == t.tip
  {
    var marked := MarkInvalid(t.nodes, root);
    if t.tip.Some? && !IsAncestor(t.nodes, root, t.tip.value) {
      forall j: nat | j < |marked|
        ensures Preferred(marked, t.tip.value, j)
      {
        assert Preferred(t.nodes, t.tip.value, j);
      }
      BestIsUnique(marked, Best(marked), t.tip);
    }
  }

  /**
   Invalidating a subtree keeps every invariant, marks exactly the subtree's nodes, moves the
   tip only when the subtree holds it, and never reports a demotion.
   */
  lemma InvalidateKeepsInv(t: Tree, root: nat)
    requires Inv(t) && root < |t.nodes|
    ensures var t' := Invalidate(t, root);
            && Inv(t')
            && SameLinks(t.nodes, t'.nodes) && |t'.nodes| == |t.nodes|
            && (forall i :: 0 <= i < |t.nodes| ==>
                  (t'.nodes[i].status.Invalid? <==> t.nodes[i].status.Invalid? || IsAncestor(t.nodes, root, i)))
            && (t.tip.Some? && !IsAncestor(t.nodes, root, t.tip.value) ==> t'.tip == t.tip)
    ensures DemotedByInvalidation(t, root) == None
  {
    TipSurvives(t, root);
    MarkKeeps(t.nodes, root);
    var marked := MarkInvalid(t.nodes, root);
    var best := Best(marked);
    if best.Some? {
      PublishKeepsCore(Tree(marked, None), best.value);
      RepublishIsBest(marked, best.value);
    }
  }

  lemma RepublishIsBest(ns: seq<Node>, best: nat)
    requires TipIsBest(ns, Some(best))
    ensures TipIsBest(Publish(Tree(ns, None), best).nodes, Publish(Tree(ns, None), best).tip)
  {
    var ns' := Publish(Tree(ns, None), best).nodes;
    BestFrame(ns, ns', Some(best));
  }

  // ---- Runs ----

  datatype Change =
    | InsertNode(parent: Option<nat>, header: Header, hash: Hash, status: Status)
    | InsertHeader(header: Header, hash: Hash, status: Status)
    | InvalidateSubtree(root: nat)
    | RecordCount(id: nat, blockCount: u64)
    | RestoreCount(id: nat, count: ChainTxCount)

  const EMPTY := Tree([], None)

  function SetCount(ns: seq<Node>, id: nat, count: ChainTxCount): seq<Node>
    requires id < |ns|
  {
    ns[id := ns[id].(txCount := count)]
  }

  function RecordedCount(ns: seq<Node>, id: nat, blockCount: u64): ChainTxCount
    requires Linked(ns) && id < |ns|
  {
    var before := if Parent(ns, id).None? then Unknown else ns[Parent(ns, id).value].txCount;
    before.Advance(ns[id].height, blockCount)
  }

  /** One change; a refused one leaves the tree as it was. */
  ghost function Apply(t: Tree, change: Change): Tree
    requires Inv(t)
  {
    match change
    case InsertNode(parent, header, hash, status) =>
      var outcome := InsertUnder(t, parent, header, hash, status);
      if outcome.Refused? then t else outcome.tree
    case InsertHeader(header, hash, status) =>
      var outcome := InsertByPrev(t, header, hash, status);
      if outcome.Refused? then t else outcome.tree
    case InvalidateSubtree(root) =>
      if root >= |t.nodes| then t else Invalidate(t, root)
    case RecordCount(id, blockCount) =>
      if id >= |t.nodes| then t
      else t.(nodes := SetCount(t.nodes, id, RecordedCount(t.nodes, id, blockCount)))
    case RestoreCount(id, count) =>
      if id >= |t.nodes| then t else t.(nodes := SetCount(t.nodes, id, count))
  }

  lemma CountKeepsInv(t: Tree, id: nat, count: ChainTxCount)
    requires id < |t.nodes|
    ensures var t' := t.(nodes := SetCount(t.nodes, id, count));
            && (Core(t) ==> Core(t')) && (TipIsBest(t.nodes, t.tip) ==> TipIsBest(t'.nodes, t'.tip))
            && SameLinks(t.nodes, t'.nodes)
  {
    var t' := t.(nodes := SetCount(t.nodes, id, count));
    if Core(t) {
      forall k: nat | k < |t'.nodes|
        ensures NodeOk(t'.nodes, k)
      {
        assert NodeOk(t.nodes, k);
      }
      UniqueFrame(t.nodes, t'.nodes);
    }
    if TipIsBest(t.nodes, t.tip) {
      BestFrame(t.nodes, t'.nodes, t.tip);
    }
  }

  /** Every change keeps the invariant and every earlier node's place in the tree. */
  lemma ApplyKeepsInv(t: Tree, change: Change)
    requires Inv(t)
    ensures Inv(Apply(t, change)) && SameLinks(t.nodes, Apply(t, change).nodes)
  {
    match change
    case InsertNode(parent, header, hash, status) =>
      if InsertUnder(t, parent, header, hash, status).Placed? {
        InsertKeepsInv(t, parent, header, hash, status);
      }
    case InsertHeader(header, hash, status) =>
      if InsertByPrev(t, header, hash, status).Placed? {
        InsertKeepsInv(t, HeaderParent(t.nodes, header).value, header, hash, status);
      }
    case InvalidateSubtree(root) =>
      if root < |t.nodes| { InvalidateKeepsInv(t, root); }
    case RecordCount(id, blockCount) =>
      if id < |t.nodes| { CountKeepsInv(t, id, RecordedCount(t.nodes, id, blockCount)); }
    case RestoreCount(id, count) =>
      if id < |t.nodes| { CountKeepsInv(t, id, count); }
  }

  /** The tree after a whole run of changes from the empty one. */
  ghost function Run(changes: seq<Change>): (t: Tree)
    ensures Inv(t)
  {
    if changes == [] then EMPTY
    else
      var before := Run(changes[..|changes| - 1]);
      ApplyKeepsInv(before, changes[|changes| - 1]);
      Apply(before, changes[|changes| - 1])
  }

  /**
   In every reachable tree the tip is the earliest valid node of greatest work, every
   descendant of an invalid node is invalid, and work is the exact sum along each path.
   */
  lemma EveryRunElectsBest(changes: seq<Change>)
    ensures var t := Run(changes);
            && TipIsBest(t.nodes, t.tip)
            && (forall i, a: nat :: 0 <= i < |t.nodes| && IsAncestor(t.nodes, a, i) && t.nodes[a].status.Invalid?
                  ==> t.nodes[i].status.Invalid?)
            && (forall i :: 0 <= i < |t.nodes| ==> t.nodes[i].chainwork == SumWork(t.nodes, Path(t.nodes, i)))
  {
    var t := Run(changes);
    forall i, a: nat | 0 <= i < |t.nodes| && IsAncestor(t.nodes, a, i)
      ensures t.nodes[a].status.Invalid? ==> t.nodes[i].status.Invalid?
    {
      AncestorWork(t.nodes, a, i);
    }
    forall i | 0 <= i < |t.nodes|
      ensures t.nodes[i].chainwork == SumWork(t.nodes, Path(t.nodes, i))
    {
      ChainworkIsPathSum(t.nodes, i);
    }
  }
}
