/**
 The block tree as the node keeps it (tree.rs): a slab of nodes, a hash table, an index of the
 active chain by height, the published tip snapshot and the BIP 9 cache, all updated in place.
 */
module BlockTrees {
  import opened Wrappers
  import opened Bounded
  import opened TxCounts
  import opened Chain
  import opened TreeModel
  import opened MedianTime
  import opened Locator
  import opened Subtrees

  datatype TipSnapshot = TipSnapshot(tipId: nat, height: u32, chainwork: u256, hash: Hash, txCount: ChainTxCount)

  datatype Inserted = Inserted(id: nat, demotedTip: Option<Hash>)

  /** The reply to an insertion. */
  function Reply(outcome: Insertion): Result<Inserted, ChainError> {
    match outcome
    case Refused(e) => Err(e)
    case Placed(_, id, demotedTip) => Ok(Inserted(id, demotedTip))
  }

  /** The tree an insertion leaves. */
  function After(t: Tree, outcome: Insertion): Tree {
    if outcome.Refused? then t else outcome.tree
  }

  datatype InvalidationOutcome = InvalidationOutcome(invalid: seq<Hash>, demotedTip: Option<Hash>)

  function Snapshot(ns: seq<Node>, id: nat): TipSnapshot
    requires id < |ns|
  {
    TipSnapshot(id, ns[id].height, ns[id].chainwork, ns[id].hash, ns[id].txCount)
  }

  function Reverse<T>(s: seq<T>): (r: seq<T>)
    ensures |r| == |s|
  {
    if s == [] then [] else [s[|s| - 1]] + Reverse(s[..|s| - 1])
  }

  lemma {:induction false} ReverseAt<T>(s: seq<T>, k: nat)
    requires k < |s|
    ensures Reverse(s)[k] == s[|s| - 1 - k]
  {
    if k > 0 { ReverseAt(s[..|s| - 1], k - 1); }
  }

  /** Hashes of the first `n` nodes that are `root` or its descendants, in index order. */
  function SubtreeHashes(ns: seq<Node>, root: nat, n: nat): seq<Hash>
    requires Linked(ns) && n <= |ns|
  {
    if n == 0 then []
    else SubtreeHashes(ns, root, n - 1) + if IsAncestor(ns, root, n - 1) then [ns[n - 1].hash] else []
  }

  /** The listed hashes are exactly those of the root's descendants. */
  lemma {:induction false} SubtreeHashesAre(ns: seq<Node>, root: nat, n: nat, hash: Hash)
    requires Linked(ns) && n <= |ns|
    ensures hash in SubtreeHashes(ns, root, n) <==> exists i: nat :: i < n && IsAncestor(ns, root, i) && ns[i].hash == hash
  {
    if n > 0 { SubtreeHashesAre(ns, root, n - 1, hash); }
  }

  /** Adds to `named` the hashes of a node's ancestors at the locator heights from `height` down. */
  function NameFrom(ns: seq<Node>, tipId: nat, height: nat, step: nat, named: seq<Hash>, cap: nat): seq<Hash>
    requires Linked(ns) && tipId < |ns| && height <= ns[tipId].height && step >= 1
    decreases height
  {
    if |named| >= cap then named
    else
      var more := named + [ns[AncestorAt(ns, tipId, height)].hash];
      if height == 0 then more
      else NameFrom(ns, tipId, Max(height - step, 0), NextStep(step, |more|), more, cap)
  }

  function LocatorHashes(ns: seq<Node>, tipId: nat, cap: nat): seq<Hash>
    requires Linked(ns) && tipId < |ns|
  {
    NameFrom(ns, tipId, ns[tipId].height, 1, [], cap)
  }

  lemma {:induction false} NameFromHeights(ns: seq<Node>, tipId: nat, height: nat, step: nat, named: seq<Hash>, cap: nat)
    requires Linked(ns) && tipId < |ns| && height <= ns[tipId].height && step >= 1
    ensures var heights := Heights(height, step, |named|, cap);
            var hashes := NameFrom(ns, tipId, height, step, named, cap);
            |hashes| == |named| + |heights| && hashes[..|named|] == named
            && forall k :: 0 <= k < |heights| ==>
                 heights[k] <= height && hashes[|named| + k] == ns[AncestorAt(ns, tipId, heights[k])].hash
    decreases height
  {
    var heights := Heights(height, step, |named|, cap);
    var hashes := NameFrom(ns, tipId, height, step, named, cap);
    if |named| < cap && height > 0 {
      var more := named + [ns[AncestorAt(ns, tipId, height)].hash];
      NameFromHeights(ns, tipId, Max(height - step, 0), NextStep(step, |more|), more, cap);
      assert hashes[..|named|] == hashes[..|more|][..|named|];
      assert hashes[|named|] == hashes[..|more|][|named|];
      forall k | 0 < k < |heights|
        ensures heights[k] <= height && hashes[|named| + k] == ns[AncestorAt(ns, tipId, heights[k])].hash
      {
        assert heights[k] == heights[1..][k - 1];
        assert hashes[|named| + k] == hashes[|more| + (k - 1)];
      }
    }
  }

  /**
   A locator names ancestors of its tip at strictly descending heights from the tip, ends at
   the root unless capped, and has a length logarithmic in the height.
   */
  lemma {:induction false} LocatorShape(ns: seq<Node>, tipId: nat, cap: nat, k: nat)
    requires Linked(ns) && tipId < |ns|
    ensures var heights := LocatorHeights(ns[tipId].height, cap);
            var hashes := LocatorHashes(ns, tipId, cap);
            && |hashes| == |heights| <= cap
            && (forall j :: 0 <= j < |heights| ==>
                  heights[j] <= ns[tipId].height && hashes[j] == ns[AncestorAt(ns, tipId, heights[j])].hash)
            && (forall i, j :: 0 <= i < j < |heights| ==> heights[i] > heights[j])
            && (cap > 0 ==> hashes != [] && hashes[0] == ns[tipId].hash)
            && (|hashes| < cap ==> hashes[|hashes| - 1] == ns[Root(ns, tipId)].hash)
            && (ns[tipId].height < Pow2(k) ==> |hashes| <= 12 + k)
  {
    var none: seq<Hash> := [];
    NameFromHeights(ns, tipId, ns[tipId].height, 1, none, cap);
    var heights, hashes := LocatorHeights(ns[tipId].height, cap), LocatorHashes(ns, tipId, cap);
    assert forall j :: 0 <= j < |heights| ==> hashes[j] == hashes[|none| + j];
    HeightsDescend(ns[tipId].height, 1, 0, cap);
    if ns[tipId].height < Pow2(k) { LocatorIsLogarithmic(ns[tipId].height, cap, k); }
  }

  lemma {:induction false} SubtreeFrame(ns: seq<Node>, ns': seq<Node>, root: nat, n: nat)
    requires Linked(ns) && Linked(ns') && SameLinks(ns, ns') && root < |ns| && n <= |ns|
    ensures SubtreeHashes(ns', root, n) == SubtreeHashes(ns, root, n)
  {
    if n > 0 {
      SubtreeFrame(ns, ns', root, n - 1);
      AncestorFrame(ns, ns', root, n - 1);
      assert SameAt(ns, ns', n - 1);
    }
  }

  /** The cached deployment states left once those of a subtree's nodes are dropped. */
  function Uncache(cache: map<(nat, nat), nat>, ns: seq<Node>, root: nat): map<(nat, nat), nat>
    requires Linked(ns)
  {
    map k | k in cache && !(k.0 < |ns| && IsAncestor(ns, root, k.0)) :: cache[k]
  }

  /** The hash table holds every node under its own hash and nothing else. */
  ghost predicate HashTableOk(ns: seq<Node>, table: map<Hash, nat>) {
    && (forall h :: h in table ==> Tabled(ns, table, h))
    && (forall i: nat :: i < |ns| ==> Listed(ns, table, i))
  }

  predicate Tabled(ns: seq<Node>, table: map<Hash, nat>, h: Hash)
    requires h in table
  {
    table[h] < |ns| && ns[table[h]].hash == h
  }

  predicate Listed(ns: seq<Node>, table: map<Hash, nat>, i: nat)
    requires i < |ns|
  {
    ns[i].hash in table && table[ns[i].hash] == i
  }

  lemma HashTableLooksUp(ns: seq<Node>, table: map<Hash, nat>, hash: Hash)
    requires HashTableOk(ns, table)
    ensures Lookup(ns, hash) == if hash in table then Some(table[hash]) else None
  {
    if hash in table { assert Tabled(ns, table, hash); }
    var found := Lookup(ns, hash);
    if found.Some? { assert Listed(ns, table, found.value); }
  }

  lemma HashTableFrame(ns: seq<Node>, ns': seq<Node>, table: map<Hash, nat>)
    requires HashTableOk(ns, table) && SameLinks(ns, ns') && |ns| == |ns'|
    ensures HashTableOk(ns', table)
  {
    forall i: nat | i < |ns|
      ensures Listed(ns', table, i)
    {
      assert Listed(ns, table, i) && SameAt(ns, ns', i);
    }
    forall h | h in table
      ensures Tabled(ns', table, h)
    {
      assert Tabled(ns, table, h) && SameAt(ns, ns', table[h]);
    }
  }

  lemma HashTableAppend(ns: seq<Node>, node: Node, table: map<Hash, nat>)
    requires HashTableOk(ns, table) && node.hash !in table
    ensures HashTableOk(ns + [node], table[node.hash := |ns|])
  {
    var ns', table' := ns + [node], table[node.hash := |ns|];
    forall i: nat | i < |ns'|
      ensures Listed(ns', table', i)
    {
      if i < |ns| { assert Listed(ns, table, i); }
    }
    forall h | h in table'
      ensures Tabled(ns', table', h)
    {
      if h != node.hash { assert Tabled(ns, table, h); }
    }
  }

  class BlockTree {
    var nodes: seq<Node>
    var byHash: map<Hash, nat>
    var entries: seq<nat>
    var trusted: bool
    var tip: Option<TipSnapshot>
    var bip9: map<(nat, nat), nat>

    ghost function View(): Tree
      reads this
    {
      Tree(nodes, if tip.None? then None else Some(tip.value.tipId))
    }

    ghost predicate SnapshotOk()
      reads this
    {
      tip.Some? ==> tip.value.tipId < |nodes| && tip.value == Snapshot(nodes, tip.value.tipId)
    }

    /** A trusted index is exactly the path from the root to the tip. */
    ghost predicate IndexOk()
      reads this
    {
      trusted ==> Linked(nodes) && tip.Some? && tip.value.tipId < |nodes|
                  && entries == Path(nodes, tip.value.tipId)
    }

    ghost predicate Structure()
      reads this
    {
      Core(View()) && HashTableOk(nodes, byHash) && SnapshotOk() && IndexOk()
    }

    /** What every reachable tree satisfies: the best tip is elected and indexed. */
    ghost predicate Valid()
      reads this
    {
      Structure() && Inv(View()) && (trusted <==> tip.Some?)
    }

    constructor ()
      ensures Valid() && View() == EMPTY && bip9 == map[]
    {
      nodes, byHash, entries, trusted, tip, bip9 := [], map[], [], false, None, map[];
    }

    // ---- Lookups ----

    method LookupHash(hash: Hash) returns (id: Option<nat>)
      requires Structure()
      ensures id == Lookup(nodes, hash)
    {
      HashTableLooksUp(nodes, byHash, hash);
      id := if hash in byHash then Some(byHash[hash]) else None;
    }

    /** The active chain's node at a height, by index. */
    function Indexed(height: nat): Option<nat>
      reads this
    {
      if height < |entries| then Some(entries[height]) else None
    }

    lemma IndexedIffOnPath(id: nat)
      requires Structure() && trusted && id < |nodes|
      ensures Indexed(nodes[id].height) == Some(id) <==> IsAncestor(nodes, id, tip.value.tipId)
    {
    }

    /** Meets `start` with a node of the active chain by walking up to the index. */
    method IndexedCommonAncestor(active: nat, start: nat) returns (meet: Option<nat>)
      requires Structure() && trusted && active < |nodes| && start < |nodes|
      requires Indexed(nodes[active].height) == Some(active)
      ensures meet == CommonAncestor(nodes, active, start)
    {
      var height := nodes[active].height;
      ghost var top := tip.value.tipId;
      meet := None;
      var other: nat, steps: nat, found := start, 0, false;
      IndexedIffOnPath(active);
      while !found && steps < |nodes|
        invariant found ==> meet == CommonAncestor(nodes, active, start)
        invariant !found ==> other < |nodes| && other + steps <= start
        invariant !found ==> meet == None && CommonAncestor(nodes, active, other) == CommonAncestor(nodes, active, start)
        decreases !found, |nodes| - steps
      {
        IndexedIffOnPath(other);
        if Indexed(nodes[other].height) == Some(other) {
          BothOnPath(nodes, top, active, other);
          meet, found := Indexed(Min(height, nodes[other].height)), true;
        } else {
          if IsAncestor(nodes, other, active) { AncestorTransitive(nodes, other, active, top); }
          RaiseNonAncestor(nodes, other, active);
          CommonAncestorSymmetric(nodes, active, other);
          if Parent(nodes, other).None? {
            found := true;
          } else {
            other := Parent(nodes, other).value;
            CommonAncestorSymmetric(nodes, active, other);
          }
        }
        steps := steps + 1;
      }
    }

    method RootAndDepth(start: nat) returns (root: nat, depth: nat)
      requires Linked(nodes) && start < |nodes|
      ensures root == Root(nodes, start) && depth == nodes[start].height
    {
      root, depth := start, 0;
      while nodes[root].parent.Some?
        invariant root < |nodes| && IsAncestor(nodes, root, start)
        invariant depth == nodes[start].height - nodes[root].height
        decreases root
      {
        ParentIsAncestor(nodes, root, start);
        root, depth := Parent(nodes, root).value, depth + 1;
      }
      assert NodeOk(nodes, root);
    }

    /** Levels both nodes by depth, then raises them together until they meet. */
    method WalkedCommonAncestor(a0: nat, b0: nat) returns (meet: Option<nat>)
      requires Linked(nodes) && a0 < |nodes| && b0 < |nodes|
      ensures meet == CommonAncestor(nodes, a0, b0)
    {
      var aRoot, aDepth := RootAndDepth(a0);
      var bRoot, bDepth := RootAndDepth(b0);
      CommonAncestorExists(nodes, a0, b0);
      if aRoot != bRoot {
        return None;
      }
      var a: nat, b: nat := a0, b0;
      while aDepth > bDepth
        invariant a < |nodes| && nodes[a].height == aDepth
        invariant CommonAncestor(nodes, a, b) == CommonAncestor(nodes, a0, b0)
        decreases aDepth
      {
        assert NodeOk(nodes, a);
        RaiseNonAncestor(nodes, a, b);
        a, aDepth := Parent(nodes, a).value, aDepth - 1;
      }
      while bDepth > aDepth
        invariant b < |nodes| && nodes[b].height == bDepth >= aDepth
        invariant CommonAncestor(nodes, a, b) == CommonAncestor(nodes, a0, b0)
        decreases bDepth
      {
        assert NodeOk(nodes, b);
        RaiseNonAncestor(nodes, b, a);
        CommonAncestorSymmetric(nodes, a, b);
        b, bDepth := Parent(nodes, b).value, bDepth - 1;
        CommonAncestorSymmetric(nodes, a, b);
      }
      while a != b
        invariant a < |nodes| && b < |nodes| && nodes[a].height == nodes[b].height
        invariant CommonAncestor(nodes, a, b) == CommonAncestor(nodes, a0, b0)
        decreases a
      {
        assert NodeOk(nodes, a) && NodeOk(nodes, b);
        RaiseBoth(nodes, a, b);
        a, b := Parent(nodes, a).value, Parent(nodes, b).value;
      }
      meet := Some(a);
    }

    method FindCommonAncestor(a: nat, b: nat) returns (meet: Option<nat>)
      requires Structure()
      ensures meet == if a < |nodes| && b < |nodes| then CommonAncestor(nodes, a, b) else None
    {
      if a >= |nodes| || b >= |nodes| {
        return None;
      }
      if trusted {
        if Indexed(nodes[a].height) == Some(a) {
          meet := IndexedCommonAncestor(a, b);
          return;
        }
        if Indexed(nodes[b].height) == Some(b) {
          meet := IndexedCommonAncestor(b, a);
          CommonAncestorSymmetric(nodes, a, b);
          return;
        }
      }
      meet := WalkedCommonAncestor(a, b);
    }

    method CacheBip9State(node: nat, id: nat, tag: nat)
      requires Valid()
      modifies this`bip9
      ensures bip9 == old(bip9)[(node, id) := tag]
      ensures Valid()
    {
      bip9 := bip9[(node, id) := tag];
    }

    // ---- Ancestor lookup ----

    /** Height where `start` leaves the indexed chain; zero without an index or a shared root. */
    ghost function ForkHeight(start: nat): nat
      requires Structure() && start < |nodes|
      reads this
    {
      if !trusted then 0
      else
        var meet := CommonAncestor(nodes, start, tip.value.tipId);
        if meet.None? then 0 else nodes[meet.value].height
    }

    /** Parent hops a lookup needs before the index answers it. */
    ghost function UnindexedHops(start: nat, target: nat): int
      requires Structure() && start < |nodes|
      reads this
    {
      nodes[start].height - Max(target, ForkHeight(start))
    }

    lemma ForkWithinStart(start: nat)
      requires Structure() && start < |nodes|
      ensures ForkHeight(start) <= nodes[start].height
    {
      if trusted { CommonAncestorIsLowest(nodes, start, tip.value.tipId); }
    }

    /** An ancestor of `start` is indexed exactly up to the fork height. */
    lemma IndexedUpToFork(cursor: nat, start: nat)
      requires Structure() && trusted && start < |nodes| && IsAncestor(nodes, cursor, start)
      ensures Indexed(nodes[cursor].height) == Some(cursor) ==> nodes[cursor].height <= ForkHeight(start)
      ensures Indexed(nodes[cursor].height) != Some(cursor) ==>
                nodes[cursor].height > ForkHeight(start) || CommonAncestor(nodes, start, tip.value.tipId).None?
    {
      IndexedIffOnPath(cursor);
      AncestorOnOtherPath(nodes, cursor, start, tip.value.tipId);
    }

    lemma IndexAnswers(cursor: nat, start: nat, target: nat)
      requires Structure() && trusted && start < |nodes| && IsAncestor(nodes, cursor, start)
      requires target <= nodes[cursor].height && ForkHeight(start) <= nodes[cursor].height
      requires Indexed(nodes[cursor].height) == Some(cursor)
      ensures Indexed(target) == Some(AncestorAt(nodes, start, target))
      ensures UnindexedHops(start, target) == nodes[start].height - nodes[cursor].height
    {
      IndexedUpToFork(cursor, start);
      IndexedIffOnPath(cursor);
      AncestorPath(nodes, cursor, start);
      AncestorPath(nodes, cursor, tip.value.tipId);
      assert Path(nodes, start)[target] == Path(nodes, start)[..nodes[cursor].height + 1][target];
      assert entries[target] == entries[..nodes[cursor].height + 1][target];
    }

    lemma HopIsNeeded(cursor: nat, start: nat, target: nat)
      requires Structure() && start < |nodes| && IsAncestor(nodes, cursor, start)
      requires target < nodes[cursor].height && ForkHeight(start) <= nodes[cursor].height
      requires trusted ==> Indexed(nodes[cursor].height) != Some(cursor)
      ensures Parent(nodes, cursor).Some?
      ensures var p := Parent(nodes, cursor).value;
              IsAncestor(nodes, p, start) && nodes[p].height == nodes[cursor].height - 1
      ensures ForkHeight(start) < nodes[cursor].height
    {
      assert NodeOk(nodes, cursor);
      if trusted { IndexedUpToFork(cursor, start); }
      ParentIsAncestor(nodes, cursor, start);
    }

    /** The ancestor at a height, paying one unit of budget per hop the index does not save. */
    method NodeAtHeightFromBounded(start: nat, target: u32, budget: nat)
      returns (r: Result<Option<nat>, ()>, remaining: nat)
      requires Structure()
      ensures start >= |nodes| || target > nodes[start].height ==> r == Ok(None) && remaining == budget
      ensures start < |nodes| && target <= nodes[start].height ==>
                var hops := UnindexedHops(start, target);
                if hops <= budget
                then r == Ok(Some(AncestorAt(nodes, start, target))) && remaining == budget - hops
                else r == Err(()) && remaining == 0
    {
      remaining := budget;
      if start >= |nodes| || target > nodes[start].height {
        return Ok(None), remaining;
      }
      var cursor: nat := start;
      ForkWithinStart(start);
      while !(trusted && Indexed(nodes[cursor].height) == Some(cursor)) && nodes[cursor].height != target
        invariant cursor < |nodes| && IsAncestor(nodes, cursor, start)
        invariant target <= nodes[cursor].height && ForkHeight(start) <= nodes[cursor].height
        invariant remaining == budget - (nodes[start].height - nodes[cursor].height)
        decreases cursor
      {
        HopIsNeeded(cursor, start, target);
        if remaining == 0 {
          return Err(()), remaining;
        }
        remaining := remaining - 1;
        cursor := Parent(nodes, cursor).value;
      }
      if trusted && Indexed(nodes[cursor].height) == Some(cursor) {
        IndexAnswers(cursor, start, target);
        r := Ok(Indexed(target));
      } else {
        r := Ok(Some(cursor));
      }
    }

    /** With the largest budget the lookup is the plain parent walk, on or off the active chain. */
    method NodeAtHeightFrom(start: nat, target: u32) returns (id: Option<nat>)
      requires Structure()
      ensures id == if start < |nodes| && target <= nodes[start].height
                    then Some(AncestorAt(nodes, start, target)) else None
    {
      var r, remaining := NodeAtHeightFromBounded(start, target, 0xFFFF_FFFF_FFFF_FFFF);
      id := if r.Ok? then r.value else None;
    }

    /** The path of a node, from the node itself up to its root. */
    method AncestorChain(start: nat) returns (r: Result<seq<nat>, ChainError>)
      requires Linked(nodes)
      ensures start >= |nodes| ==> r == Err(UnknownNode(start))
      ensures start < |nodes| ==> r.Ok? && Reverse(r.value) == Path(nodes, start)
    {
      if start >= |nodes| {
        return Err(UnknownNode(start));
      }
      var out: seq<nat> := [start];
      var cursor: nat, top := start, nodes[start].height;
      while Parent(nodes, cursor).Some?
        invariant cursor < |nodes| && IsAncestor(nodes, cursor, start)
        invariant |out| == top - nodes[cursor].height + 1
        invariant forall k :: 0 <= k < |out| ==> out[k] == AncestorAt(nodes, start, top - k)
        decreases cursor
      {
        ParentIsAncestor(nodes, cursor, start);
        cursor := Parent(nodes, cursor).value;
        out := out + [cursor];
      }
      assert NodeOk(nodes, cursor);
      ghost var path := Path(nodes, start);
      forall h | 0 <= h < |path|
        ensures Reverse(out)[h] == path[h]
      {
        ReverseAt(out, h);
      }
      r := Ok(out);
    }

    // ---- Locators ----

    /** The indexed node at a height links to its neighbours in the index. */
    predicate StepIsConsistent(height: nat)
      requires height < |entries| && entries[height] < |nodes|
      reads this
    {
      var id := entries[height];
      && nodes[id].parent == (if height == 0 then None else Indexed(height - 1))
      && (height + 1 < |entries| ==> entries[height + 1] < |nodes| && nodes[entries[height + 1]].parent == Some(id))
    }

    /** A trusted index always passes that test, at every height it has. */
    lemma IndexIsConsistent(height: nat)
      requires Structure() && trusted && height < |entries|
      ensures entries[height] < |nodes| && nodes[entries[height]].height == height && StepIsConsistent(height)
    {
      PathPrefix(nodes, tip.value.tipId, height);
      PathParent(nodes, tip.value.tipId, height);
      if height + 1 < |entries| {
        PathParent(nodes, tip.value.tipId, height + 1);
      }
    }

    /** The index answers exactly for the published tip, with the reference locator. */
    method IndexedBlockLocator(tipId: nat, cap: nat) returns (locator: Option<seq<Hash>>)
      requires Structure()
      ensures locator.Some? <==> cap > 0 && trusted && tip.value.tipId == tipId
      ensures locator.Some? ==> tipId < |nodes| && locator.value == LocatorHashes(nodes, tipId, cap)
    {
      if cap == 0 || !trusted || entries[|entries| - 1] != tipId {
        return None;
      }
      assert entries == Path(nodes, tipId);
      var hashes: seq<Hash> := [];
      var height: u32, step: u32, more, consistent := nodes[tipId].height, 1, true, true;
      ghost var ideal: nat := 1;
      while more && consistent && |hashes| < cap
        invariant height <= nodes[tipId].height && ideal >= 1 && step == Min(ideal, U32_MAX) && consistent
        invariant hashes == [] ==> height == nodes[tipId].height
        invariant LocatorHashes(nodes, tipId, cap)
                  == if more then NameFrom(nodes, tipId, height, ideal, hashes, cap) else hashes
        decreases more, cap - |hashes|
      {
        IndexIsConsistent(height);
        var id := Indexed(height).value;
        consistent := (hashes != [] || id == tipId) && nodes[id].height == height && StepIsConsistent(height);
        hashes := hashes + [nodes[id].hash];
        if height == 0 {
          more := false;
        } else {
          height, ideal := SaturatingSub32(height, step), NextStep(ideal, |hashes|);
          if |hashes| > 10 {
            step := SaturatingMul32(step, 2);
          }
        }
      }
      locator := if consistent then Some(hashes) else None;
    }

    /** Walks at most `steps` parents up from an ancestor of `tipId`; none at the root. */
    method WalkParentSteps(ghost tipId: nat, start: nat, steps: u64, ghost ideal: nat) returns (id: Option<nat>)
      requires Linked(nodes) && tipId < |nodes| && IsAncestor(nodes, start, tipId)
      requires ideal >= 1 && steps == Min(ideal, U64_MAX)
      ensures id.None? <==> nodes[start].height == 0
      ensures id.Some? ==> id.value < |nodes| && IsAncestor(nodes, id.value, tipId)
                           && nodes[id.value].height == Max(nodes[start].height - ideal, 0)
    {
      var walker: nat, k := start, 0;
      while k < steps && nodes[walker].parent.Some?
        invariant 0 <= k <= steps && walker < |nodes| && IsAncestor(nodes, walker, tipId)
        invariant nodes[walker].height == nodes[start].height - k
      {
        ParentIsAncestor(nodes, walker, tipId);
        walker, k := Parent(nodes, walker).value, k + 1;
      }
      assert NodeOk(nodes, walker);
      id := if k > 0 then Some(walker) else None;
    }

    method WalkedBlockLocator(tipId: nat, cap: nat) returns (locator: seq<Hash>)
      requires Linked(nodes)
      ensures locator == if tipId < |nodes| then LocatorHashes(nodes, tipId, cap) else []
    {
      locator := [];
      if tipId >= |nodes| {
        return;
      }
      var current: nat, step: u64, more := tipId, 1, true;
      ghost var ideal: nat := 1;
      while more && |locator| < cap
        invariant current < |nodes| && IsAncestor(nodes, current, tipId)
        invariant ideal >= 1 && step == Min(ideal, U64_MAX)
        invariant LocatorHashes(nodes, tipId, cap)
                  == if more then NameFrom(nodes, tipId, nodes[current].height, ideal, locator, cap) else locator
        decreases more, cap - |locator|
      {
        locator := locator + [nodes[current].hash];
        var walker := WalkParentSteps(tipId, current, step, ideal);
        if walker.None? {
          more := false;
        } else {
          current, ideal := walker.value, NextStep(ideal, |locator|);
          if |locator| > 10 {
            step := Min(2 * step, U64_MAX);
          }
        }
      }
    }

    /** The index and the parent walk name the same blocks for every tip and cap. */
    method BlockLocator(tipId: nat, cap: nat) returns (locator: seq<Hash>)
      requires Structure()
      ensures locator == if tipId < |nodes| then LocatorHashes(nodes, tipId, cap) else []
    {
      var indexed := IndexedBlockLocator(tipId, cap);
      if indexed.Some? {
        return indexed.value;
      }
      locator := WalkedBlockLocator(tipId, cap);
    }

    // ---- Median time past ----

    /** Fills a window with the times of a node and its nearest ancestors. */
    method WindowTimes(start: nat, window: nat) returns (filled: seq<u32>)
      requires Linked(nodes) && start < |nodes|
      ensures filled == Times(nodes, start, window)
    {
      var ns := nodes;
      var times := new u32[window](_ => 0);
      var len: nat, cursor: nat, more := 0, start, true;
      ghost var top := ns[start].height;
      while more && len < window
        invariant len <= window && cursor < |ns| && IsAncestor(ns, cursor, start)
        invariant top - ns[cursor].height == if more then len else len - 1
        invariant !more ==> ns[cursor].height == 0
        invariant forall k :: 0 <= k < len ==> k <= top && times[k] == ns[AncestorAt(ns, start, top - k)].header.time
        decreases more, window - len
      {
        assert cursor == AncestorAt(ns, start, top - len);
        times[len] := ns[cursor].header.time;
        len := len + 1;
        if Parent(ns, cursor).None? {
          assert NodeOk(ns, cursor);
          more := false;
        } else {
          ParentIsAncestor(ns, cursor, start);
          cursor := Parent(ns, cursor).value;
        }
      }
      filled := times[..len];
      forall k | 0 <= k < len
        ensures filled[k] == Times(ns, start, window)[k]
      {
        TimesAt(ns, start, window, k);
      }
    }

    method MedianTimePastAt(start: nat) returns (median: Option<u32>)
      requires Linked(nodes)
      ensures median == if start < |nodes| then Some(MedianTimePast(nodes, start)) else None
    {
      if start >= |nodes| {
        return None;
      }
      var times := WindowTimes(start, WINDOW);
      median := Some(Sort(times)[|times| / 2]);
    }

    // ---- Publishing a tip ----

    /** Extends the index by one when it ends at the parent, and otherwise rebuilds it. */
    method RefreshActiveHeightIndex(tipId: nat, ghost last: nat)
      requires Linked(nodes) && tipId < |nodes|
      requires trusted ==> last < |nodes| && entries == Path(nodes, last)
      modifies this`entries, this`trusted
      ensures trusted && entries == Path(nodes, tipId)
    {
      assert NodeOk(nodes, tipId);
      var parent := nodes[tipId].parent;
      if parent.Some? && trusted && entries[|entries| - 1] == parent.value && |entries| == nodes[tipId].height {
        entries := entries + [tipId];
        return;
      }
      var chain := AncestorChain(tipId);
      entries, trusted := Reverse(chain.value), true;
    }

    /** The tip a publication of `id` displaces, if `id` does not extend it. */
    method DisplacedBy(id: nat) returns (demoted: Option<Hash>)
      requires Structure() && id < |nodes| && WouldPublish(View(), id)
      ensures demoted == Displaced(View(), id)
    {
      demoted := None;
      if tip.Some? && tip.value.tipId != id {
        var previous := tip.value;
        var extendsTip := nodes[id].parent == Some(previous.tipId);
        AncestorOfParent(nodes, previous.tipId, id);
        if !extendsTip {
          var meet := FindCommonAncestor(previous.tipId, id);
          MeetsAtSelf(nodes, previous.tipId, id);
          extendsTip := meet == Some(previous.tipId);
        }
        if !extendsTip {
          demoted := Some(previous.hash);
        }
      }
    }

    /** Publishes a node that beats the tip; reports a tip the new one does not extend. */
    method PublishTipIfBest(id: nat) returns (demoted: Option<Hash>)
      requires Structure() && id < |nodes|
      modifies this`nodes, this`tip, this`entries, this`trusted
      ensures View() == Publish(old(View()), id) && demoted == Displaced(old(View()), id)
      ensures Structure()
      ensures trusted == (old(trusted) || WouldPublish(old(View()), id))
    {
      var node := nodes[id];
      if node.status.Invalid? || (tip.Some? && node.chainwork <= tip.value.chainwork) {
        return None;
      }
      demoted := DisplacedBy(id);
      ghost var was, last := View(), if tip.Some? then tip.value.tipId else 0;
      PublishKeepsCore(was, id);
      HashTableFrame(nodes, Publish(was, id).nodes, byHash);
      if trusted { PathFrame(nodes, Publish(was, id).nodes, last); }
      if tip.Some? && tip.value.tipId != id {
        nodes := SetStatus(nodes, tip.value.tipId, Stale);
      }
      nodes := SetStatus(nodes, id, Active);
      tip := Some(Snapshot(nodes, id));
      assert View() == Publish(was, id);
      RefreshActiveHeightIndex(id, last);
    }

    // ---- Insertion ----

    /** The node a header becomes, with the checks in the order they are made. */
    method PrepareNode(parent: Option<nat>, header: Header, hash: Hash, status: Status)
      returns (r: Result<Node, ChainError>)
      requires HashTableOk(nodes, byHash)
      ensures r == NewNode(nodes, parent, header, hash, status)
      ensures r.Ok? ==> hash !in byHash
    {
      HashTableLooksUp(nodes, byHash, hash);
      if hash in byHash {
        return Err(DuplicateHeader(hash));
      }
      var work := BlockWork(header);
      if parent.None? {
        return Ok(Node(None, 0, hash, header, work, Unknown, status));
      }
      if parent.value >= |nodes| {
        return Err(UnknownNode(parent.value));
      }
      var above := nodes[parent.value];
      if header.prev != above.hash {
        return Err(NonContinuousHeader(above.hash, header.prev));
      }
      if above.height + 1 > U32_MAX {
        return Err(HeightOverflow(parent.value));
      }
      if above.chainwork + work >= U256_LIMIT {
        return Err(ChainworkOverflow(hash));
      }
      var settled := if above.status.Invalid? then Invalid else status;
      r := Ok(Node(parent, above.height + 1, hash, header, above.chainwork + work, Unknown, settled));
    }

    method InsertNodeWithHash(parent: Option<nat>, header: Header, hash: Hash, status: Status)
      returns (r: Result<Inserted, ChainError>)
      requires Structure()
      modifies this`nodes, this`byHash, this`tip, this`entries, this`trusted
      ensures var outcome := InsertUnder(old(View()), parent, header, hash, status);
              r == Reply(outcome) && View() == After(old(View()), outcome)
      ensures Structure() && (old(Valid()) ==> Valid())
    {
      var node := PrepareNode(parent, header, hash, status);
      if node.Err? {
        return Err(node.error);
      }
      InsertKeepsInv(View(), parent, header, hash, status);
      AppendedIsCore(View(), parent, header, hash, status);
      var demoted := AppendNode(node.value);
      r := Ok(Inserted(|nodes| - 1, demoted));
    }

    method AppendNode(node: Node) returns (demoted: Option<Hash>)
      requires Structure() && node.hash !in byHash && Core(Tree(nodes + [node], View().tip))
      modifies this`nodes, this`byHash, this`tip, this`entries, this`trusted
      ensures var grown := Tree(old(nodes) + [node], old(View()).tip);
              && View() == Publish(grown, |old(nodes)|) && demoted == Displaced(grown, |old(nodes)|)
              && trusted == (old(trusted) || WouldPublish(grown, |old(nodes)|))
      ensures Structure()
    {
      HashTableAppend(nodes, node, byHash);
      if trusted { PathFrame(nodes, nodes + [node], tip.value.tipId); }
      var id := |nodes|;
      nodes := nodes + [node];
      byHash := byHash[node.hash := id];
      demoted := PublishTipIfBest(id);
    }

    /** Inserts under the node the header names; the first header becomes the root. */
    method InsertHeaderWithHash(header: Header, hash: Hash, status: Status)
      returns (r: Result<Inserted, ChainError>)
      requires Structure()
      modifies this`nodes, this`byHash, this`tip, this`entries, this`trusted
      ensures var outcome := InsertByPrev(old(View()), header, hash, status);
              r == Reply(outcome) && View() == After(old(View()), outcome)
      ensures Structure() && (old(Valid()) ==> Valid())
    {
      var parent: Option<nat> := None;
      if |nodes| != 0 {
        parent := LookupHash(header.prev);
        if parent.None? {
          return Err(MissingParent(header.prev));
        }
      }
      r := InsertNodeWithHash(parent, header, hash, status);
    }

    // ---- Invalidation ----

    /** The children of every node, collected in one pass. */
    method ChildLists() returns (children: seq<seq<nat>>)
      requires Linked(nodes)
      ensures |children| == |nodes|
      ensures forall p: nat :: p < |nodes| ==> ListsChildren(nodes, |nodes|, p, children[p])
    {
      var ns := nodes;
      children := seq(|ns|, _ => []);
      for i: nat := 0 to |ns|
        invariant |children| == |ns|
        invariant forall p: nat :: p < |ns| ==> ListsChildren(ns, i, p, children[p])
      {
        ghost var before := children;
        if ns[i].parent.Some? {
          var p := Parent(ns, i).value;
          children := children[p := children[p] + [i]];
        }
        forall p: nat | p < |ns|
          ensures ListsChildren(ns, i + 1, p, children[p])
        {
          assert ListsChildren(ns, i, p, before[p]);
        }
      }
    }

    /** Marks a node and all its descendants with a worklist over child lists. */
    method MarkSubtree(root: nat) returns (invalid: seq<bool>)
      requires Linked(nodes) && root < |nodes|
      ensures |invalid| == |nodes|
      ensures forall i: nat :: i < |nodes| ==> (invalid[i] <==> IsAncestor(nodes, root, i))
    {
      var ns := nodes;
      var children := ChildLists();
      invalid := seq(|ns|, i => i == root);
      var worklist: seq<nat> := [root];
      while worklist != []
        invariant |invalid| == |ns| && invalid[root]
        invariant forall i: nat :: i < |ns| && invalid[i] ==> IsAncestor(ns, root, i)
        invariant forall w :: w in worklist ==> w < |ns| && invalid[w]
        invariant forall i: nat :: i < |ns| && invalid[i] && i !in worklist ==> ChildrenMarked(ns, invalid, i)
        decreases CountUnmarked(invalid), |worklist|
      {
        var id, rest := worklist[|worklist| - 1], worklist[..|worklist| - 1];
        assert worklist == rest + [id] && id in worklist;
        assert forall w :: w in worklist <==> w in rest || w == id;
        assert ListsChildren(ns, |ns|, id, children[id]);
        invalid, worklist := MarkChildren(ns, root, id, children[id], invalid, rest);
      }
      forall i: nat | i < |ns|
        ensures invalid[i] <==> IsAncestor(ns, root, i)
      {
        if IsAncestor(ns, root, i) { MarksReachDescendants(ns, invalid, root, i); }
      }
    }

    static method MarkChildren(ns: seq<Node>, ghost root: nat, id: nat, children: seq<nat>,
                               invalid0: seq<bool>, worklist0: seq<nat>)
      returns (invalid: seq<bool>, worklist: seq<nat>)
      requires Linked(ns) && id < |ns| && |invalid0| == |ns| && IsAncestor(ns, root, id)
      requires ListsChildren(ns, |ns|, id, children)
      requires forall i: nat :: i < |ns| && invalid0[i] ==> IsAncestor(ns, root, i)
      requires forall w :: w in worklist0 ==> w < |ns| && invalid0[w]
      requires forall i: nat :: i < |ns| && invalid0[i] && i !in worklist0 && i != id ==> ChildrenMarked(ns, invalid0, i)
      ensures |invalid| == |ns|
      ensures forall i: nat :: i < |ns| && invalid0[i] ==> invalid[i]
      ensures forall i: nat :: i < |ns| && invalid[i] ==> IsAncestor(ns, root, i)
      ensures forall w :: w in worklist ==> w < |ns| && invalid[w]
      ensures forall i: nat :: i < |ns| && invalid[i] && i !in worklist ==> ChildrenMarked(ns, invalid, i)
      ensures CountUnmarked(invalid) < CountUnmarked(invalid0)
              || (invalid == invalid0 && worklist == worklist0)
    {
      invalid, worklist := invalid0, worklist0;
      for k := 0 to |children|
        invariant |invalid| == |ns|
        invariant forall i: nat :: i < |ns| && invalid0[i] ==> invalid[i]
        invariant forall i: nat :: i < |ns| && invalid[i] ==> IsAncestor(ns, root, i)
        invariant forall w :: w in worklist ==> w < |ns| && invalid[w]
        invariant forall i: nat :: i < |ns| && invalid[i] && i !in worklist && i != id ==> ChildrenMarked(ns, invalid, i)
        invariant forall j :: 0 <= j < k ==> children[j] in children && invalid[children[j]]
        invariant CountUnmarked(invalid) < CountUnmarked(invalid0)
                  || (invalid == invalid0 && worklist == worklist0)
      {
        var child := children[k];
        assert child in children;
        if !invalid[child] {
          AncestorOfParent(ns, root, child);
          MarkingCountsDown(invalid, child);
          invalid, worklist := invalid[child := true], worklist + [child];
        }
      }
    }

    /** The best node left once a subtree is marked, by one pass in index order. */
    method BestOutside(ghost root: nat, invalid: seq<bool>) returns (best: Option<nat>)
      requires Linked(nodes) && root < |nodes| && |invalid| == |nodes|
      requires forall i: nat :: i < |nodes| ==> (invalid[i] <==> IsAncestor(nodes, root, i))
      ensures best == Best(MarkInvalid(nodes, root))
    {
      ghost var marked := MarkInvalid(nodes, root);
      best := None;
      for i: nat := 0 to |nodes|
        invariant best == Best(marked[..i])
        invariant best.Some? ==> marked[best.value].chainwork == nodes[best.value].chainwork
      {
        assert marked[..i + 1][..i] == marked[..i];
        if !invalid[i] && !nodes[i].status.Invalid? {
          if best.None? || nodes[i].chainwork > nodes[best.value].chainwork {
            best := Some(i);
          }
        }
      }
      assert marked[..|nodes|] == marked;
    }

    /** Marks a subtree invalid, re-elects a tip, and reports a valid tip displaced by that. */
    method InvalidateSubtree(root: nat) returns (r: Result<InvalidationOutcome, ChainError>)
      requires Structure()
      modifies this
      ensures root >= |old(nodes)| ==> r == Err(UnknownNode(root)) && unchanged(this)
      ensures root < |old(nodes)| ==>
                && r == Ok(InvalidationOutcome(SubtreeHashes(old(nodes), root, |old(nodes)|),
                                               DemotedByInvalidation(old(View()), root)))
                && View() == Invalidate(old(View()), root)
                && bip9 == Uncache(old(bip9), old(nodes), root)
      ensures Structure() && (old(Valid()) ==> Valid())
    {
      if root >= |nodes| {
        return Err(UnknownNode(root));
      }
      ghost var was := View();
      var invalid := MarkSubtree(root);
      var best := BestOutside(root, invalid);
      var demoted := RetireTip(root, invalid, best);
      SubtreeFrame(was.nodes, nodes, root, |nodes|);
      DropCached(was.nodes, root, invalid);
      var hashes := MarkAndReelect(root, invalid, best);
      r := Ok(InvalidationOutcome(hashes, demoted));
      if Inv(was) { InvalidateKeepsInv(was, root); }
    }

    method DropCached(ghost ns: seq<Node>, ghost root: nat, invalid: seq<bool>)
      requires Linked(ns) && |invalid| == |ns|
      requires forall i: nat :: i < |ns| ==> (invalid[i] <==> IsAncestor(ns, root, i))
      modifies this`bip9
      ensures bip9 == Uncache(old(bip9), ns, root)
    {
      bip9 := map k | k in bip9 && !(k.0 < |invalid| && invalid[k.0]) :: bip9[k];
    }

    method MarkAndReelect(ghost root: nat, invalid: seq<bool>, best: Option<nat>) returns (hashes: seq<Hash>)
      requires Structure() && root < |nodes| && |invalid| == |nodes| && (best.Some? ==> best.value < |nodes|)
      requires forall i: nat :: i < |nodes| ==> (invalid[i] <==> IsAncestor(nodes, root, i))
      modifies this`nodes, this`tip, this`entries, this`trusted
      ensures var marked := Tree(MarkInvalid(old(nodes), root), None);
              View() == if best.None? then marked else Publish(marked, best.value)
      ensures hashes == SubtreeHashes(old(nodes), root, |old(nodes)|)
      ensures Structure() && (trusted <==> tip.Some?)
    {
      hashes := MarkNodes(root, invalid);
      if best.Some? {
        var _ := PublishTipIfBest(best.value);
      }
    }

    /** Retires a valid tip that another node now beats; says whether that one leaves its chain. */
    method RetireTip(ghost root: nat, invalid: seq<bool>, best: Option<nat>) returns (demoted: Option<Hash>)
      requires Structure() && root < |nodes| && |invalid| == |nodes|
      requires forall i: nat :: i < |nodes| ==> (invalid[i] <==> IsAncestor(nodes, root, i))
      requires best == Best(MarkInvalid(nodes, root))
      modifies this`nodes
      ensures nodes == if TipIsRetired(old(View()), root) then SetStatus(old(nodes), tip.value.tipId, Stale) else old(nodes)
      ensures demoted == DemotedByInvalidation(old(View()), root)
      ensures Structure() && SameLinks(old(nodes), nodes) && |nodes| == |old(nodes)|
      ensures forall i: nat :: i < |nodes| ==> (invalid[i] <==> IsAncestor(nodes, root, i))
    {
      demoted := None;
      if tip.Some? && best.Some? && best.value != tip.value.tipId && !invalid[tip.value.tipId] {
        var meet := FindCommonAncestor(tip.value.tipId, best.value);
        MeetsAtSelf(nodes, tip.value.tipId, best.value);
        if meet != Some(tip.value.tipId) {
          demoted := Some(tip.value.hash);
        }
        ghost var ns' := SetStatus(nodes, tip.value.tipId, Stale);
        RestatusKeeps(nodes, tip.value.tipId, Stale);
        HashTableFrame(nodes, ns', byHash);
        if trusted { PathFrame(nodes, ns', tip.value.tipId); }
        forall i: nat | i < |nodes|
          ensures invalid[i] <==> IsAncestor(ns', root, i)
        {
          AncestorFrame(nodes, ns', root, i);
        }
        nodes := SetStatus(nodes, tip.value.tipId, Stale);
      }
    }

    /** Unpublishes the tip, drops the index and marks the subtree's nodes invalid. */
    method MarkNodes(ghost root: nat, invalid: seq<bool>) returns (hashes: seq<Hash>)
      requires Structure() && root < |nodes| && |invalid| == |nodes|
      requires forall i: nat :: i < |nodes| ==> (invalid[i] <==> IsAncestor(nodes, root, i))
      modifies this`nodes, this`tip, this`entries, this`trusted
      ensures nodes == MarkInvalid(old(nodes), root)
      ensures hashes == SubtreeHashes(old(nodes), root, |old(nodes)|)
      ensures tip == None && !trusted && entries == []
      ensures Structure()
    {
      MarkKeeps(nodes, root);
      HashTableFrame(nodes, MarkInvalid(nodes, root), byHash);
      tip, entries, trusted := None, [], false;
      nodes, hashes := MarkEach(nodes, root, invalid);
    }

    static method MarkEach(ns: seq<Node>, ghost root: nat, invalid: seq<bool>)
      returns (marked: seq<Node>, hashes: seq<Hash>)
      requires Linked(ns) && root < |ns| && |invalid| == |ns|
      requires forall i: nat :: i < |ns| ==> (invalid[i] <==> IsAncestor(ns, root, i))
      ensures marked == MarkInvalid(ns, root)
      ensures hashes == SubtreeHashes(ns, root, |ns|)
    {
      marked, hashes := ns, [];
      for i: nat := 0 to |ns|
        invariant |marked| == |ns|
        invariant forall j: nat :: j < |ns| ==>
                    marked[j] == if j < i && invalid[j] then ns[j].(status := Invalid) else ns[j]
        invariant hashes == SubtreeHashes(ns, root, i)
      {
        if invalid[i] {
          marked := marked[i := marked[i].(status := Invalid)];
          hashes := hashes + [marked[i].hash];
        }
      }
    }

    // ---- Replay and counts ----

    /** Off-path branches to save with a tip, found in one pass that looks only at parents. */
    method ReplayableSideNodes(tipId: nat) returns (r: Result<seq<nat>, ChainError>)
      requires Linked(nodes)
      ensures r == if tipId >= |nodes| then Err(UnknownNode(tipId)) else Ok(SideNodes(nodes, tipId, |nodes|))
    {
      if tipId >= |nodes| {
        return Err(UnknownNode(tipId));
      }
      var kept := MarkPath(tipId);
      var side: seq<nat> := [];
      for i: nat := 0 to |nodes|
        invariant |kept| == |nodes|
        invariant forall j: nat :: j < |nodes| ==>
                    (kept[j] <==> IsAncestor(nodes, j, tipId) || (j < i && Replayable(nodes, tipId, j)))
        invariant side == SideNodes(nodes, tipId, i)
      {
        ReplayableByParent(nodes, tipId, i);
        if nodes[i].parent.Some? && !kept[i] && !nodes[i].status.Invalid?
           && nodes[i].chainwork <= nodes[tipId].chainwork && kept[Parent(nodes, i).value]
        {
          kept := kept[i := true];
          side := side + [i];
        }
      }
      r := Ok(side);
    }

    method MarkPath(tipId: nat) returns (kept: seq<bool>)
      requires Linked(nodes) && tipId < |nodes|
      ensures |kept| == |nodes|
      ensures forall j: nat :: j < |nodes| ==> (kept[j] <==> IsAncestor(nodes, j, tipId))
    {
      kept := seq(|nodes|, _ => false);
      var cursor: Option<nat> := Some(tipId);
      while cursor.Some?
        invariant |kept| == |nodes| && (cursor.Some? ==> cursor.value < |nodes| && IsAncestor(nodes, cursor.value, tipId))
        invariant forall j: nat :: j < |nodes| ==>
                    (IsAncestor(nodes, j, tipId) <==> kept[j] || (cursor.Some? && IsAncestor(nodes, j, cursor.value)))
        decreases if cursor.Some? then cursor.value + 1 else 0
      {
        var id := cursor.value;
        forall j: nat | j < |nodes|
          ensures IsAncestor(nodes, j, id) <==> j == id || (Parent(nodes, id).Some? && IsAncestor(nodes, j, Parent(nodes, id).value))
        {
          AncestorOfParent(nodes, j, id);
        }
        if Parent(nodes, id).Some? { ParentIsAncestor(nodes, id, tipId); }
        kept := kept[id := true];
        cursor := Parent(nodes, id);
      }
    }

    /** Keeps the published snapshot in step with its node. */
    method RefreshPublishedTip(id: nat)
      requires id < |nodes|
      modifies this`tip
      ensures tip == if old(tip).Some? && old(tip).value.tipId == id then Some(Snapshot(nodes, id)) else old(tip)
    {
      if tip.Some? && tip.value.tipId == id {
        tip := Some(Snapshot(nodes, id));
      }
    }

    method SetChainTxCount(id: nat, count: ChainTxCount)
      requires Structure() && id < |nodes|
      modifies this`nodes, this`tip
      ensures View() == old(View()).(nodes := SetCount(old(nodes), id, count))
      ensures Structure() && (old(Valid()) ==> Valid())
    {
      ghost var was := View();
      CountKeepsInv(was, id, count);
      HashTableFrame(nodes, SetCount(nodes, id, count), byHash);
      if trusted { PathFrame(nodes, SetCount(nodes, id, count), tip.value.tipId); }
      nodes := SetCount(nodes, id, count);
      RefreshPublishedTip(id);
    }

    method RecordAppliedTxCount(id: nat, blockCount: u64) returns (r: Result<(), ChainError>)
      requires Structure()
      modifies this`nodes, this`tip
      ensures id >= |old(nodes)| ==> r == Err(UnknownNode(id)) && unchanged(this)
      ensures id < |old(nodes)| ==>
                r == Ok(()) && View() == old(View()).(nodes := SetCount(old(nodes), id, RecordedCount(old(nodes), id, blockCount)))
      ensures Structure() && (old(Valid()) ==> Valid())
    {
      if id >= |nodes| {
        return Err(UnknownNode(id));
      }
      var parent := Parent(nodes, id);
      var before := if parent.Some? then nodes[parent.value].txCount else Unknown;
      SetChainTxCount(id, before.Advance(nodes[id].height, blockCount));
      r := Ok(());
    }

    method RestoreChainTxCount(id: nat, count: ChainTxCount) returns (r: Result<(), ChainError>)
      requires Structure()
      modifies this`nodes, this`tip
      ensures id >= |old(nodes)| ==> r == Err(UnknownNode(id)) && unchanged(this)
      ensures id < |old(nodes)| ==> r == Ok(()) && View() == old(View()).(nodes := SetCount(old(nodes), id, count))
      ensures Structure() && (old(Valid()) ==> Valid())
    {
      if id >= |nodes| {
        return Err(UnknownNode(id));
      }
      SetChainTxCount(id, count);
      r := Ok(());
    }
  }
}
