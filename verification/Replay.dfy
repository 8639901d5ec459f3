/** Saving a tree as header lists and rebuilding it (tree.rs, `replayable_side_nodes`). */
module Replay {
  import opened Wrappers
  import opened Chain
  import opened TreeModel
  import opened Subtrees

  /** The nodes saved for a tip: its path from the root, then the replayable side branches. */
  function Saved(ns: seq<Node>, tip: nat): seq<nat>
    requires Linked(ns) && tip < |ns|
  {
    Path(ns, tip) + SideNodes(ns, tip, |ns|)
  }

  ghost predicate Covers(list: seq<nat>, ns: seq<Node>) {
    forall k: nat :: k < |list| ==> list[k] < |ns|
  }

  /** Inserts the listed nodes' headers into an empty tree; none when any insertion is refused. */
  function Rebuild(ns: seq<Node>, list: seq<nat>): (t: Option<Tree>)
    requires Covers(list, ns)
    ensures t.Some? ==> Inv(t.value)
  {
    if list == [] then Some(EMPTY)
    else
      var last := ns[list[|list| - 1]];
      assert forall k: nat :: k < |list| - 1 ==> list[..|list| - 1][k] == list[k];
      var before := Rebuild(ns, list[..|list| - 1]);
      if before.None? then None
      else
        var outcome := InsertByPrev(before.value, last.header, last.hash, HeaderValid);
        if outcome.Refused? then None
        else
          InsertKeepsInv(before.value, HeaderParent(before.value.nodes, last.header).value,
                         last.header, last.hash, HeaderValid);
          Some(outcome.tree)
  }

  predicate Copied(n: Node, n': Node) {
    && n'.hash == n.hash && n'.header == n.header && n'.height == n.height && n'.chainwork == n.chainwork
    && !n'.status.Invalid?
  }

  predicate CopiedAt(ns: seq<Node>, list: seq<nat>, ns': seq<Node>, k: nat)
    requires k < |list| && k < |ns'| && list[k] < |ns|
  {
    Copied(ns[list[k]], ns'[k])
  }

  /** The rebuilt tree holds copies of the listed nodes in order. */
  ghost predicate Mirrors(ns: seq<Node>, list: seq<nat>, t: Tree)
    requires Covers(list, ns)
  {
    |t.nodes| == |list| && forall k: nat :: k < |list| ==> CopiedAt(ns, list, t.nodes, k)
  }

  ghost predicate Distinct(list: seq<nat>) {
    forall j: nat, k: nat :: j < k < |list| ==> DifferAt(list, j, k)
  }

  predicate DifferAt(list: seq<nat>, j: nat, k: nat)
    requires j < k < |list|
  {
    list[j] != list[k]
  }

  /** The entry at `k` is the root when first, and otherwise has its parent earlier in the list. */
  ghost predicate ParentFirst(ns: seq<Node>, list: seq<nat>, k: nat)
    requires Linked(ns) && Covers(list, ns) && k < |list|
  {
    if k == 0 then Parent(ns, list[0]).None?
    else Parent(ns, list[k]).Some? && Parent(ns, list[k]).value in list[..k]
  }

  /** Inserting the next listed node succeeds and mirrors it. */
  lemma InsertMirrors(ns: seq<Node>, list: seq<nat>, k: nat, t: Tree)
    requires Linked(ns) && UniqueHashes(ns) && Covers(list, ns) && Distinct(list) && k < |list|
    requires ParentFirst(ns, list, k) && Core(t) && Covers(list[..k], ns) && Mirrors(ns, list[..k], t)
    ensures var n := ns[list[k]];
            var outcome := InsertByPrev(t, n.header, n.hash, HeaderValid);
            && outcome.Placed?
            && Covers(list[..k + 1], ns) && Mirrors(ns, list[..k + 1], outcome.tree)
  {
    var i := list[k];
    var n := ns[i];
    NotYetInserted(ns, list, k, t);
    if k > 0 {
      var p := Parent(ns, i).value;
      var j :| 0 <= j < k && list[..k][j] == p;
      assert CopiedAt(ns, list[..k], t.nodes, j);
      LookupIs(t.nodes, j);
    }
    assert NodeOk(ns, i);
    var parent := HeaderParent(t.nodes, n.header).value;
    InsertKeepsInv(t, parent, n.header, n.hash, HeaderValid);
    var t' := InsertByPrev(t, n.header, n.hash, HeaderValid).tree;
    var upto := list[..k + 1];
    forall m: nat | m < |upto|
      ensures CopiedAt(ns, upto, t'.nodes, m)
    {
      if m < k {
        assert CopiedAt(ns, list[..k], t.nodes, m) && SameAt(t.nodes, t'.nodes, m);
      }
    }
  }

  lemma NotYetInserted(ns: seq<Node>, list: seq<nat>, k: nat, t: Tree)
    requires UniqueHashes(ns) && Covers(list, ns) && Distinct(list) && k < |list|
    requires Covers(list[..k], ns) && Mirrors(ns, list[..k], t)
    ensures Lookup(t.nodes, ns[list[k]].hash).None?
  {
    forall m: nat | m < |t.nodes|
      ensures t.nodes[m].hash != ns[list[k]].hash
    {
      assert CopiedAt(ns, list[..k], t.nodes, m) && DifferAt(list, m, k);
      DistinctHashes(ns, list[m], list[k]);
    }
  }

  /** The list can be inserted in order: no node twice, each after its parent. */
  ghost predicate Rebuildable(ns: seq<Node>, list: seq<nat>) {
    && Linked(ns) && UniqueHashes(ns) && Covers(list, ns) && Distinct(list)
    && forall j: nat :: j < |list| ==> ParentFirst(ns, list, j)
  }

  /** Every insertion succeeds, and the rebuilt tree mirrors the list. */
  ghost predicate Rebuilds(ns: seq<Node>, list: seq<nat>) {
    Covers(list, ns) && Rebuild(ns, list).Some? && Mirrors(ns, list, Rebuild(ns, list).value)
  }

  lemma RebuildNext(ns: seq<Node>, list: seq<nat>, k: nat)
    requires Covers(list, ns) && k < |list| && Covers(list[..k], ns) && Covers(list[..k + 1], ns)
    requires Rebuild(ns, list[..k]).Some?
    requires InsertByPrev(Rebuild(ns, list[..k]).value, ns[list[k]].header, ns[list[k]].hash, HeaderValid).Placed?
    ensures Rebuild(ns, list[..k + 1])
         == Some(InsertByPrev(Rebuild(ns, list[..k]).value, ns[list[k]].header, ns[list[k]].hash, HeaderValid).tree)
  {
    assert list[..k + 1][..k] == list[..k];
  }

  lemma RebuildStep(ns: seq<Node>, list: seq<nat>, k: nat)
    requires Linked(ns) && UniqueHashes(ns) && Covers(list, ns) && Distinct(list)
    requires k < |list| && ParentFirst(ns, list, k) && Rebuilds(ns, list[..k])
    ensures Rebuilds(ns, list[..k + 1])
  {
    InsertMirrors(ns, list, k, Rebuild(ns, list[..k]).value);
    RebuildNext(ns, list, k);
  }

  lemma {:induction false} RebuildPrefix(ns: seq<Node>, list: seq<nat>, k: nat)
    requires Rebuildable(ns, list) && k <= |list|
    ensures Rebuilds(ns, list[..k])
  {
    if k > 0 {
      RebuildPrefix(ns, list, k - 1);
      RebuildStep(ns, list, k - 1);
    } else {
      assert list[..0] == [];
    }
  }

  // ---- What is saved ----

  lemma {:induction false} SideMembers(ns: seq<Node>, tip: nat, n: nat, i: nat)
    requires Linked(ns) && tip < |ns| && n <= |ns|
    ensures i in SideNodes(ns, tip, n) <==> i < n && Replayable(ns, tip, i)
  {
    if n > 0 { SideMembers(ns, tip, n - 1, i); }
  }

  lemma {:induction false} SideIncreases(ns: seq<Node>, tip: nat, n: nat)
    requires Linked(ns) && tip < |ns| && n <= |ns|
    ensures Increasing(SideNodes(ns, tip, n), n)
  {
    if n > 0 {
      SideIncreases(ns, tip, n - 1);
      if Replayable(ns, tip, n - 1) {
        assert SideNodes(ns, tip, n) == SideNodes(ns, tip, n - 1) + [n - 1];
      } else {
        assert SideNodes(ns, tip, n) == SideNodes(ns, tip, n - 1);
      }
    }
  }

  predicate Increasing(side: seq<nat>, bound: nat) {
    && (forall k :: 0 <= k < |side| ==> side[k] < bound)
    && (forall j, k :: 0 <= j < k < |side| ==> side[j] < side[k])
  }

  lemma SavedIsOrdered(ns: seq<Node>, tip: nat)
    requires Linked(ns) && tip < |ns|
    ensures Covers(Saved(ns, tip), ns) && Distinct(Saved(ns, tip))
  {
    var path, side, list := Path(ns, tip), SideNodes(ns, tip, |ns|), Saved(ns, tip);
    SideIncreases(ns, tip, |ns|);
    forall k: nat | k < |path|
      ensures path[k] < |ns| && ns[path[k]].height == k
    {
      PathPrefix(ns, tip, k);
    }
    forall j: nat, k: nat | j < k < |list|
      ensures DifferAt(list, j, k)
    {
      if j < |path| <= k {
        assert side[k - |path|] in side;
        SideMembers(ns, tip, |ns|, side[k - |path|]);
      }
    }
  }

  lemma ListedBefore(list: seq<nat>, n: nat, x: nat, k: nat)
    requires Increasing(list, n) && k < |list| && x in list && x < list[k]
    ensures x in list[..k]
  {
    var j :| 0 <= j < |list| && list[j] == x;
    assert list[..k][j] == x;
  }

  /** A replayable node's parent is on the tip's path or listed before it. */
  lemma SideParent(ns: seq<Node>, tip: nat, k: nat)
    requires Linked(ns) && tip < |ns| && k < |SideNodes(ns, tip, |ns|)|
    ensures var side := SideNodes(ns, tip, |ns|);
            side[k] < |ns| && Parent(ns, side[k]).Some?
            && (Parent(ns, side[k]).value in Path(ns, tip) || Parent(ns, side[k]).value in side[..k])
  {
    var side := SideNodes(ns, tip, |ns|);
    SideIncreases(ns, tip, |ns|);
    var i := side[k];
    assert i in side;
    SideMembers(ns, tip, |ns|, i);
    ReplayableByParent(ns, tip, i);
    var p := Parent(ns, i).value;
    if IsAncestor(ns, p, tip) {
      PathMembers(ns, p, tip);
    } else {
      SideMembers(ns, tip, |ns|, p);
      ListedBefore(side, |ns|, p, k);
    }
  }

  lemma SavedParentsFirst(ns: seq<Node>, tip: nat, k: nat)
    requires Linked(ns) && tip < |ns| && Covers(Saved(ns, tip), ns) && k < |Saved(ns, tip)|
    ensures ParentFirst(ns, Saved(ns, tip), k)
  {
    var path, side, list := Path(ns, tip), SideNodes(ns, tip, |ns|), Saved(ns, tip);
    if k < |path| {
      PathParent(ns, tip, k);
      if k > 0 { assert list[..k][k - 1] == path[k - 1]; }
    } else {
      SideParent(ns, tip, k - |path|);
      assert list[..k] == path + side[..k - |path|];
    }
  }

  lemma SavedRebuilds(ns: seq<Node>, tip: nat)
    requires Linked(ns) && UniqueHashes(ns) && tip < |ns|
    ensures Rebuilds(ns, Saved(ns, tip))
  {
    var list := Saved(ns, tip);
    SavedIsOrdered(ns, tip);
    forall j: nat | j < |list| ensures ParentFirst(ns, list, j) {
      SavedParentsFirst(ns, tip, j);
    }
    RebuildPrefix(ns, list, |list|);
    assert list[..|list|] == list;
  }

  // ---- Which tip is elected ----

  /** The tip's own block adds work, or it has no parent to outweigh. */
  predicate Outweighs(ns: seq<Node>, tip: nat)
    requires Linked(ns) && tip < |ns|
  {
    Parent(ns, tip).None? || BlockWork(ns[tip].header) >= 1
  }

  /** No saved node has more work than the tip, and the path below it has less when the tip adds work. */
  lemma SavedWork(ns: seq<Node>, tip: nat, k: nat)
    requires Linked(ns) && tip < |ns| && k < |Saved(ns, tip)|
    ensures var i := Saved(ns, tip)[k];
            && i < |ns| && ns[i].chainwork <= ns[tip].chainwork
            && (k < ns[tip].height && Outweighs(ns, tip) ==> ns[i].chainwork < ns[tip].chainwork)
  {
    var path, side := Path(ns, tip), SideNodes(ns, tip, |ns|);
    if k < |path| {
      PathPrefix(ns, tip, k);
      AncestorWork(ns, path[k], tip);
      if k < ns[tip].height {
        assert NodeOk(ns, tip);
        AncestorOfParent(ns, path[k], tip);
        AncestorWork(ns, path[k], Parent(ns, tip).value);
      }
    } else {
      assert side[k - |path|] in side;
      SideMembers(ns, tip, |ns|, side[k - |path|]);
    }
  }

  lemma OutweighingIsBest(ns: seq<Node>, tip: nat, t: Tree)
    requires Linked(ns) && tip < |ns| && Outweighs(ns, tip)
    requires Covers(Saved(ns, tip), ns) && Mirrors(ns, Saved(ns, tip), t)
    ensures TipIsBest(t.nodes, Some(ns[tip].height))
  {
    var list, h := Saved(ns, tip), ns[tip].height;
    assert list[h] == tip;
    assert CopiedAt(ns, list, t.nodes, h);
    forall j: nat | j < |t.nodes| ensures Preferred(t.nodes, h, j) {
      assert CopiedAt(ns, list, t.nodes, j);
      SavedWork(ns, tip, j);
    }
  }

  lemma WeightlessIsNotBest(ns: seq<Node>, tip: nat, t: Tree)
    requires Linked(ns) && tip < |ns| && !Outweighs(ns, tip)
    requires Covers(Saved(ns, tip), ns) && Mirrors(ns, Saved(ns, tip), t)
    ensures !TipIsBest(t.nodes, Some(ns[tip].height))
  {
    var list, h := Saved(ns, tip), ns[tip].height;
    assert NodeOk(ns, tip);
    PathParent(ns, tip, h);
    assert list[h] == tip && list[h - 1] == Parent(ns, tip).value;
    assert CopiedAt(ns, list, t.nodes, h) && CopiedAt(ns, list, t.nodes, h - 1);
    assert !Preferred(t.nodes, h, h - 1);
  }

  /** The rebuilt tree's tip is the copy of the saved one. */
  ghost predicate SameTip(ns: seq<Node>, tip: nat)
    requires Linked(ns) && tip < |ns|
  {
    && Rebuilds(ns, Saved(ns, tip))
    && var t := Rebuild(ns, Saved(ns, tip)).value;
    && t.tip == Some(ns[tip].height) && ns[tip].height < |t.nodes| && t.nodes[ns[tip].height].hash == ns[tip].hash
  }

  /**
   Saving a tip's path and then its side branches, and inserting them into an empty tree, never
   misses a parent and restores every listed node with its work. It elects the same tip exactly when
   the tip's own block adds work or is the root.
   */
  lemma ReplayRestoresTip(ns: seq<Node>, tip: nat)
    requires Linked(ns) && UniqueHashes(ns) && tip < |ns|
    ensures Rebuilds(ns, Saved(ns, tip))
    ensures SameTip(ns, tip) <==> Outweighs(ns, tip)
    ensures forall i: nat :: i < |ns| ==>
              (i in Saved(ns, tip) <==> IsAncestor(ns, i, tip) || Replayable(ns, tip, i))
  {
    SavedMembers(ns, tip);
    SavedRebuilds(ns, tip);
    ElectsIff(ns, tip, Rebuild(ns, Saved(ns, tip)).value);
  }

  lemma ElectsIff(ns: seq<Node>, tip: nat, t: Tree)
    requires Linked(ns) && tip < |ns| && Covers(Saved(ns, tip), ns) && Mirrors(ns, Saved(ns, tip), t) && Inv(t)
    ensures t.tip == Some(ns[tip].height) <==> Outweighs(ns, tip)
    ensures ns[tip].height < |t.nodes| && t.nodes[ns[tip].height].hash == ns[tip].hash
  {
    assert Saved(ns, tip)[ns[tip].height] == tip;
    assert CopiedAt(ns, Saved(ns, tip), t.nodes, ns[tip].height);
    if Outweighs(ns, tip) {
      OutweighingIsBest(ns, tip, t);
      BestIsUnique(t.nodes, t.tip, Some(ns[tip].height));
    } else {
      WeightlessIsNotBest(ns, tip, t);
    }
  }

  lemma SavedMembers(ns: seq<Node>, tip: nat)
    requires Linked(ns) && tip < |ns|
    ensures forall i: nat :: i < |ns| ==>
              (i in Saved(ns, tip) <==> IsAncestor(ns, i, tip) || Replayable(ns, tip, i))
  {
    forall i: nat | i < |ns|
      ensures i in Saved(ns, tip) <==> IsAncestor(ns, i, tip) || Replayable(ns, tip, i)
    {
      PathMembers(ns, i, tip);
      SideMembers(ns, tip, |ns|, i);
    }
  }

  /** An elected tip always outweighs its parent, so the tip of any reachable tree is restored. */
  lemma EveryRunRestoresItsTip(changes: seq<Change>)
    requires Run(changes).tip.Some?
    ensures SameTip(Run(changes).nodes, Run(changes).tip.value)
  {
    var t := Run(changes);
    var tip := t.tip.value;
    assert NodeOk(t.nodes, tip);
    if Parent(t.nodes, tip).Some? {
      assert Preferred(t.nodes, tip, Parent(t.nodes, tip).value);
    }
    ReplayRestoresTip(t.nodes, tip);
  }
}
