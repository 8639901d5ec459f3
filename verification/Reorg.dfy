/** Planning the switch from one tip to another (reorg.rs). */
module Reorg {
  import opened Wrappers
  import opened Chain
  import opened TreeModel
  import opened BlockTrees

  datatype ReorgPlan = ReorgPlan(disconnect: seq<nat>, connect: seq<nat>)

  /** The part of a node's path above its ancestor at height `h`. */
  function PathAbove(ns: seq<Node>, i: nat, h: nat): seq<nat>
    requires Linked(ns) && i < |ns| && h <= ns[i].height
  {
    Path(ns, i)[h + 1..]
  }

  /** The plan between two nodes that meet at `c`: down the old path, then up the new one. */
  function PlanAt(ns: seq<Node>, oldTip: nat, newTip: nat, c: nat): ReorgPlan
    requires Linked(ns) && oldTip < |ns| && newTip < |ns| && IsAncestor(ns, c, oldTip) && IsAncestor(ns, c, newTip)
  {
    ReorgPlan(Reverse(PathAbove(ns, oldTip, ns[c].height)), PathAbove(ns, newTip, ns[c].height))
  }

  /** Raising a cursor puts it at the bottom of the part of the path above it. */
  lemma PathAboveRaise(ns: seq<Node>, i: nat, a: nat)
    requires Linked(ns) && i < |ns| && IsAncestor(ns, a, i) && Parent(ns, a).Some?
    ensures NodeOk(ns, a)
            && PathAbove(ns, i, ns[Parent(ns, a).value].height) == [a] + PathAbove(ns, i, ns[a].height)
  {
    assert NodeOk(ns, a);
  }

  lemma {:induction false} ReversePrepend<T>(x: T, s: seq<T>)
    ensures Reverse([x] + s) == Reverse(s) + [x]
  {
    if s != [] {
      var front := s[..|s| - 1];
      assert ([x] + s)[..|s|] == [x] + front;
      ReversePrepend(x, front);
    }
  }

  lemma {:induction false} ReverseTwice<T>(s: seq<T>)
    ensures Reverse(Reverse(s)) == s
  {
    if s != [] {
      var front := s[..|s| - 1];
      ReverseTwice(front);
      ReversePrepend(s[|s| - 1], Reverse(front));
    }
  }

  /** Walks both tips to their meeting point, collecting what to disconnect and connect. */
  method PlanReorg(tree: BlockTree, oldTip: nat, newTip: nat) returns (r: Result<ReorgPlan, ChainError>)
    requires tree.Structure()
    ensures oldTip >= |tree.nodes| ==> r == Err(UnknownNode(oldTip))
    ensures oldTip < |tree.nodes| && newTip >= |tree.nodes| ==> r == Err(UnknownNode(newTip))
    ensures oldTip < |tree.nodes| && newTip < |tree.nodes| ==>
              match CommonAncestor(tree.nodes, oldTip, newTip)
              case None => r == Err(NoCommonAncestor(oldTip, newTip))
              case Some(c) => IsMeet(tree.nodes, Some(c), oldTip, newTip) && r == Ok(PlanAt(tree.nodes, oldTip, newTip, c))
  {
    if oldTip >= |tree.nodes| {
      return Err(UnknownNode(oldTip));
    }
    if newTip >= |tree.nodes| {
      return Err(UnknownNode(newTip));
    }
    var ns := tree.nodes;
    CommonAncestorIsLowest(ns, oldTip, newTip);
    var oldCursor: nat, newCursor: nat := oldTip, newTip;
    var disconnect: seq<nat>, connect: seq<nat> := [], [];
    while ns[oldCursor].height > ns[newCursor].height
      invariant Walked(ns, oldTip, newTip, oldCursor, newCursor, disconnect, connect)
      decreases oldCursor
    {
      assert NodeOk(ns, oldCursor);
      disconnect, oldCursor := RaiseOld(ns, oldTip, newTip, oldCursor, newCursor, disconnect, connect);
    }
    while ns[newCursor].height > ns[oldCursor].height
      invariant Walked(ns, oldTip, newTip, oldCursor, newCursor, disconnect, connect)
      invariant ns[newCursor].height >= ns[oldCursor].height
      decreases newCursor
    {
      assert NodeOk(ns, newCursor);
      connect, newCursor := RaiseNew(ns, oldTip, newTip, oldCursor, newCursor, disconnect, connect);
    }
    while oldCursor != newCursor
      invariant Walked(ns, oldTip, newTip, oldCursor, newCursor, disconnect, connect)
      invariant ns[newCursor].height == ns[oldCursor].height
      decreases oldCursor
    {
      RaiseBoth(ns, oldCursor, newCursor);
      if Parent(ns, oldCursor).None? {
        return Err(NoCommonAncestor(oldTip, newTip));
      }
      assert NodeOk(ns, oldCursor) && NodeOk(ns, newCursor);
      disconnect, oldCursor := RaiseOld(ns, oldTip, newTip, oldCursor, newCursor, disconnect, connect);
      connect, newCursor := RaiseNew(ns, oldTip, newTip, oldCursor, newCursor, disconnect, connect);
    }
    MeetsAtSelf(ns, oldCursor, newCursor);
    ReverseTwice(PathAbove(ns, newTip, ns[newCursor].height));
    r := Ok(ReorgPlan(disconnect, Reverse(connect)));
  }

  /** Both cursors are ancestors of their tips, meet where the tips meet, and the rest is collected. */
  ghost predicate Walked(ns: seq<Node>, oldTip: nat, newTip: nat, oldCursor: nat, newCursor: nat,
                         disconnect: seq<nat>, connect: seq<nat>)
    requires Linked(ns) && oldTip < |ns| && newTip < |ns|
  {
    && oldCursor < |ns| && newCursor < |ns|
    && IsAncestor(ns, oldCursor, oldTip) && IsAncestor(ns, newCursor, newTip)
    && CommonAncestor(ns, oldCursor, newCursor) == CommonAncestor(ns, oldTip, newTip)
    && disconnect == Reverse(PathAbove(ns, oldTip, ns[oldCursor].height))
    && connect == Reverse(PathAbove(ns, newTip, ns[newCursor].height))
  }

  method RaiseOld(ns: seq<Node>, oldTip: nat, newTip: nat, oldCursor: nat, newCursor: nat,
                  disconnect: seq<nat>, ghost connect: seq<nat>)
    returns (disconnect': seq<nat>, cursor: nat)
    requires Linked(ns) && oldTip < |ns| && newTip < |ns|
    requires Walked(ns, oldTip, newTip, oldCursor, newCursor, disconnect, connect)
    requires Parent(ns, oldCursor).Some? && !IsAncestor(ns, oldCursor, newCursor)
    ensures cursor == Parent(ns, oldCursor).value
    ensures Walked(ns, oldTip, newTip, cursor, newCursor, disconnect', connect)
  {
    RaiseNonAncestor(ns, oldCursor, newCursor);
    ParentIsAncestor(ns, oldCursor, oldTip);
    PathAboveRaise(ns, oldTip, oldCursor);
    ReversePrepend(oldCursor, PathAbove(ns, oldTip, ns[oldCursor].height));
    disconnect' := disconnect + [oldCursor];
    cursor := Parent(ns, oldCursor).value;
  }

  method RaiseNew(ns: seq<Node>, oldTip: nat, newTip: nat, oldCursor: nat, newCursor: nat,
                  ghost disconnect: seq<nat>, connect: seq<nat>)
    returns (connect': seq<nat>, cursor: nat)
    requires Linked(ns) && oldTip < |ns| && newTip < |ns|
    requires Walked(ns, oldTip, newTip, oldCursor, newCursor, disconnect, connect)
    requires Parent(ns, newCursor).Some? && !IsAncestor(ns, newCursor, oldCursor)
    ensures cursor == Parent(ns, newCursor).value
    ensures Walked(ns, oldTip, newTip, oldCursor, cursor, disconnect, connect')
  {
    CommonAncestorSymmetric(ns, oldCursor, newCursor);
    RaiseNonAncestor(ns, newCursor, oldCursor);
    CommonAncestorSymmetric(ns, oldCursor, Parent(ns, newCursor).value);
    ParentIsAncestor(ns, newCursor, newTip);
    PathAboveRaise(ns, newTip, newCursor);
    ReversePrepend(newCursor, PathAbove(ns, newTip, ns[newCursor].height));
    connect' := connect + [newCursor];
    cursor := Parent(ns, newCursor).value;
  }

  /** Disconnects blocks from the end of a chain, one by one, refusing any that is not its tip. */
  function Disconnect(chain: seq<nat>, blocks: seq<nat>): Option<seq<nat>> {
    if blocks == [] then Some(chain)
    else if chain == [] || chain[|chain| - 1] != blocks[0] then None
    else Disconnect(chain[..|chain| - 1], blocks[1..])
  }

  lemma {:induction false} DisconnectSuffix(keep: seq<nat>, drop: seq<nat>)
    ensures Disconnect(keep + drop, Reverse(drop)) == Some(keep)
  {
    if drop == [] {
      assert keep + drop == keep;
    } else {
      var front := drop[..|drop| - 1];
      assert (keep + drop)[..|keep + drop| - 1] == keep + front;
      assert Reverse(drop)[1..] == Reverse(front);
      DisconnectSuffix(keep, front);
    }
  }

  /**
   Carrying out a plan turns the old root-to-tip path into the new one block by block, and no
   block is both disconnected and connected.
   */
  lemma PlanSwitchesPaths(ns: seq<Node>, oldTip: nat, newTip: nat, c: nat)
    requires Linked(ns) && oldTip < |ns| && newTip < |ns| && IsLowestCommonAncestor(ns, c, oldTip, newTip)
    ensures var plan := PlanAt(ns, oldTip, newTip, c);
            && Disconnect(Path(ns, oldTip), plan.disconnect) == Some(Path(ns, c))
            && Path(ns, c) + plan.connect == Path(ns, newTip)
            && (forall x :: x in plan.disconnect ==> x !in plan.connect)
  {
    var h := ns[c].height;
    var drop, add := PathAbove(ns, oldTip, h), PathAbove(ns, newTip, h);
    AncestorPath(ns, c, oldTip);
    AncestorPath(ns, c, newTip);
    assert Path(ns, oldTip) == Path(ns, c) + drop;
    assert Path(ns, newTip) == Path(ns, c) + add;
    DisconnectSuffix(Path(ns, c), drop);
    forall x | x in add
      ensures x < |ns| && IsAncestor(ns, x, newTip)
    {
      var k :| 0 <= k < |add| && add[k] == x;
      AboveIsHigher(ns, newTip, h, k);
    }
    forall x | x in Reverse(drop)
      ensures x !in add
    {
      var j :| 0 <= j < |Reverse(drop)| && Reverse(drop)[j] == x;
      ReverseAt(drop, j);
      AboveIsHigher(ns, oldTip, h, |drop| - 1 - j);
      AboveMeetIsUnshared(ns, c, oldTip, newTip, x);
    }
  }

  /** An ancestor of one tip above the meeting point is no ancestor of the other. */
  lemma AboveMeetIsUnshared(ns: seq<Node>, c: nat, a: nat, b: nat, x: nat)
    requires Linked(ns) && a < |ns| && b < |ns| && IsLowestCommonAncestor(ns, c, a, b)
    requires IsAncestor(ns, x, a) && ns[x].height > ns[c].height
    ensures !IsAncestor(ns, x, b)
  {
    assert !IsAncestor(ns, x, c);
    assert !IsCommonAncestor(ns, x, a, b);
  }

  lemma AboveIsHigher(ns: seq<Node>, i: nat, h: nat, k: nat)
    requires Linked(ns) && i < |ns| && h <= ns[i].height && k < |PathAbove(ns, i, h)|
    ensures var x := PathAbove(ns, i, h)[k]; x < |ns| && IsAncestor(ns, x, i) && ns[x].height > h
  {
    PathPrefix(ns, i, h + 1 + k);
  }
}
