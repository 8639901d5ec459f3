/**
 Headers linked into a tree by parent index, and the plain parent walk over them.
 A node is named by its slab index and only ever points at a smaller one.
 */
module Chain {
  import opened Wrappers
  import opened Bounded
  import opened TxCounts
  import Work

  type Hash = u256

  /** A block header; `hash` stands for what hashing the header yields. */
  datatype Header = Header(version: int, prev: Hash, time: u32, bits: u32, hash: Hash)

  datatype Status = HeaderValid | Active | Stale | Invalid

  datatype Node = Node(
    parent: Option<nat>,
    height: u32,
    hash: Hash,
    header: Header,
    chainwork: u256,
    txCount: ChainTxCount,
    status: Status)

  function BlockWork(header: Header): u256 { Work.BlockWork(header.bits) }

  // ---- Well-formed trees ----

  /** A node agrees with its parent on height, work, previous hash and invalidity. */
  ghost predicate NodeOk(ns: seq<Node>, i: nat)
    requires i < |ns|
  {
    match ns[i].parent
    case None =>
      ns[i].height == 0 && ns[i].chainwork == BlockWork(ns[i].header)
    case Some(p) =>
      && p < i
      && ns[i].height == ns[p].height + 1
      && ns[i].chainwork == ns[p].chainwork + BlockWork(ns[i].header)
      && ns[i].header.prev == ns[p].hash
      && (ns[p].status.Invalid? ==> ns[i].status.Invalid?)
  }

  ghost predicate Linked(ns: seq<Node>) {
    forall i :: 0 <= i < |ns| ==> NodeOk(ns, i)
  }

  function Parent(ns: seq<Node>, i: nat): (p: Option<nat>)
    requires Linked(ns) && i < |ns|
    ensures p.Some? ==> p.value < i
  {
    assert NodeOk(ns, i);
    ns[i].parent
  }

  /** The same nodes keep their place in the tree; status and counts may differ. */
  ghost predicate SameLinks(ns: seq<Node>, ns': seq<Node>) {
    |ns| <= |ns'| && forall i: nat :: i < |ns| ==> SameAt(ns, ns', i)
  }

  predicate SameAt(ns: seq<Node>, ns': seq<Node>, i: nat)
    requires i < |ns| && i < |ns'|
  {
    SameNode(ns[i], ns'[i])
  }

  predicate SameNode(n: Node, n': Node) {
    n'.parent == n.parent && n'.height == n.height && n'.hash == n.hash
    && n'.header == n.header && n'.chainwork == n.chainwork
  }

  lemma LinksTransitive(ns: seq<Node>, ns': seq<Node>, ns'': seq<Node>)
    requires SameLinks(ns, ns') && SameLinks(ns', ns'')
    ensures SameLinks(ns, ns'')
  {
    forall i: nat | i < |ns|
      ensures SameAt(ns, ns'', i)
    {
      assert SameAt(ns, ns', i) && SameAt(ns', ns'', i);
    }
  }

  // ---- The path from the root ----

  /** The path from the root down to node `i`. */
  function Path(ns: seq<Node>, i: nat): (path: seq<nat>)
    requires Linked(ns) && i < |ns|
    ensures |path| == ns[i].height + 1 && path[|path| - 1] == i
  {
    assert NodeOk(ns, i);
    match ns[i].parent
    case None => [i]
    case Some(p) => Path(ns, p) + [i]
  }

  /** The ancestor of `i` at height `h`. */
  function AncestorAt(ns: seq<Node>, i: nat, h: nat): (a: nat)
    requires Linked(ns) && i < |ns| && h <= ns[i].height
    ensures a <= i
  {
    PathPrefix(ns, i, h);
    Path(ns, i)[h]
  }

  /** `a` is `i` itself or one of its ancestors. */
  predicate IsAncestor(ns: seq<Node>, a: nat, i: nat)
    requires Linked(ns) && i < |ns|
  {
    a < |ns| && ns[a].height <= ns[i].height && Path(ns, i)[ns[a].height] == a
  }

  /** Every entry of a path sits at its own height, and the path up to it is its own path. */
  lemma {:induction false} PathPrefix(ns: seq<Node>, i: nat, h: nat)
    requires Linked(ns) && i < |ns| && h <= ns[i].height
    ensures var a := Path(ns, i)[h]; a <= i && ns[a].height == h && Path(ns, a) == Path(ns, i)[..h + 1]
  {
    assert NodeOk(ns, i);
    if h < ns[i].height {
      var p := ns[i].parent.value;
      PathPrefix(ns, p, h);
      assert Path(ns, i)[..h + 1] == Path(ns, p)[..h + 1];
    } else {
      assert Path(ns, i)[..h + 1] == Path(ns, i);
    }
  }

  /** Each entry of a path is the parent of the next. */
  lemma PathParent(ns: seq<Node>, tip: nat, k: nat)
    requires Linked(ns) && tip < |ns| && k < |Path(ns, tip)|
    ensures var path := Path(ns, tip);
            path[k] < |ns| && Parent(ns, path[k]) == if k == 0 then None else Some(path[k - 1])
  {
    PathPrefix(ns, tip, k);
    var i := Path(ns, tip)[k];
    assert NodeOk(ns, i);
    if k > 0 {
      assert Path(ns, i)[k - 1] == Path(ns, tip)[..k + 1][k - 1];
    }
  }

  lemma PathMembers(ns: seq<Node>, a: nat, i: nat)
    requires Linked(ns) && i < |ns|
    ensures IsAncestor(ns, a, i) <==> a in Path(ns, i)
  {
    if a in Path(ns, i) {
      var h :| 0 <= h < |Path(ns, i)| && Path(ns, i)[h] == a;
      PathPrefix(ns, i, h);
    }
  }

  lemma AncestorOfParent(ns: seq<Node>, a: nat, i: nat)
    requires Linked(ns) && i < |ns|
    ensures IsAncestor(ns, a, i) <==>
            a == i || (Parent(ns, i).Some? && IsAncestor(ns, a, Parent(ns, i).value))
  {
    assert NodeOk(ns, i);
    PathMembers(ns, a, i);
    if Parent(ns, i).Some? {
      PathMembers(ns, a, Parent(ns, i).value);
    }
  }

  lemma AncestorPath(ns: seq<Node>, a: nat, i: nat)
    requires Linked(ns) && i < |ns| && IsAncestor(ns, a, i)
    ensures a <= i && Path(ns, a) == Path(ns, i)[..ns[a].height + 1]
  {
    PathPrefix(ns, i, ns[a].height);
  }

  lemma AncestorTransitive(ns: seq<Node>, a: nat, b: nat, i: nat)
    requires Linked(ns) && i < |ns| && b < |ns| && IsAncestor(ns, a, b) && IsAncestor(ns, b, i)
    ensures IsAncestor(ns, a, i)
  {
    AncestorPath(ns, b, i);
  }

  lemma ParentIsAncestor(ns: seq<Node>, a: nat, i: nat)
    requires Linked(ns) && i < |ns| && IsAncestor(ns, a, i) && Parent(ns, a).Some?
    ensures IsAncestor(ns, Parent(ns, a).value, i)
    ensures ns[Parent(ns, a).value].height == ns[a].height - 1
  {
    assert NodeOk(ns, a);
    AncestorOfParent(ns, Parent(ns, a).value, a);
    AncestorTransitive(ns, Parent(ns, a).value, a, i);
  }

  /** Two ancestors of one node are ancestors of one another, by height. */
  lemma AncestorsNested(ns: seq<Node>, a: nat, b: nat, i: nat)
    requires Linked(ns) && i < |ns| && IsAncestor(ns, a, i) && IsAncestor(ns, b, i)
    requires ns[a].height <= ns[b].height
    ensures IsAncestor(ns, a, b)
  {
    AncestorPath(ns, b, i);
  }

  /** An ancestor's ancestor at a height is the node's own ancestor there. */
  lemma AncestorStep(ns: seq<Node>, i: nat, a: nat, h: nat)
    requires Linked(ns) && i < |ns| && IsAncestor(ns, a, i) && h <= ns[a].height
    ensures AncestorAt(ns, a, h) == AncestorAt(ns, i, h)
    ensures IsAncestor(ns, AncestorAt(ns, i, h), i) && ns[AncestorAt(ns, i, h)].height == h
  {
    AncestorPath(ns, a, i);
    PathPrefix(ns, i, h);
    assert Path(ns, a)[h] == Path(ns, i)[..ns[a].height + 1][h];
  }

  lemma {:induction false} PathFrame(ns: seq<Node>, ns': seq<Node>, i: nat)
    requires Linked(ns) && Linked(ns') && SameLinks(ns, ns') && i < |ns|
    ensures Path(ns', i) == Path(ns, i)
  {
    assert NodeOk(ns, i) && SameAt(ns, ns', i);
    if ns[i].parent.Some? {
      PathFrame(ns, ns', ns[i].parent.value);
    }
  }

  lemma AncestorFrame(ns: seq<Node>, ns': seq<Node>, a: nat, i: nat)
    requires Linked(ns) && Linked(ns') && SameLinks(ns, ns') && i < |ns| && a < |ns|
    ensures IsAncestor(ns', a, i) <==> IsAncestor(ns, a, i)
  {
    PathFrame(ns, ns', i);
    assert SameAt(ns, ns', a) && SameAt(ns, ns', i);
  }

  // ---- Work along a path ----

  /** The work of the blocks a path names; entries that name no node count for nothing. */
  function SumWork(ns: seq<Node>, path: seq<nat>): nat {
    if path == [] then 0
    else
      var last := path[|path| - 1];
      SumWork(ns, path[..|path| - 1]) + if last < |ns| then BlockWork(ns[last].header) else 0
  }

  /** A node's chainwork is the exact sum of the block work along its path. */
  lemma {:induction false} ChainworkIsPathSum(ns: seq<Node>, i: nat)
    requires Linked(ns) && i < |ns|
    ensures ns[i].chainwork == SumWork(ns, Path(ns, i))
  {
    assert NodeOk(ns, i);
    var path := Path(ns, i);
    match ns[i].parent
    case None =>
      assert path[..|path| - 1] == [];
    case Some(p) =>
      ChainworkIsPathSum(ns, p);
      assert path[..|path| - 1] == Path(ns, p);
  }

  lemma {:induction false} AncestorWork(ns: seq<Node>, a: nat, i: nat)
    requires Linked(ns) && i < |ns| && IsAncestor(ns, a, i)
    ensures ns[a].chainwork <= ns[i].chainwork
    ensures ns[a].status.Invalid? ==> ns[i].status.Invalid?
  {
    assert NodeOk(ns, i);
    AncestorOfParent(ns, a, i);
    if a != i {
      AncestorWork(ns, a, ns[i].parent.value);
    }
  }

  // ---- Common ancestors ----

  ghost predicate IsCommonAncestor(ns: seq<Node>, c: nat, a: nat, b: nat)
    requires Linked(ns) && a < |ns| && b < |ns|
  {
    IsAncestor(ns, c, a) && IsAncestor(ns, c, b)
  }

  /** `c` is a common ancestor of `a` and `b` below which every other one lies. */
  ghost predicate IsLowestCommonAncestor(ns: seq<Node>, c: nat, a: nat, b: nat)
    requires Linked(ns) && a < |ns| && b < |ns|
  {
    IsCommonAncestor(ns, c, a, b)
    && forall d: nat :: IsCommonAncestor(ns, d, a, b) ==> IsAncestor(ns, d, c)
  }

  function Root(ns: seq<Node>, i: nat): (r: nat)
    requires Linked(ns) && i < |ns|
    ensures r <= i
  {
    PathPrefix(ns, i, 0);
    Path(ns, i)[0]
  }

  /** The answer of the plain walk: raise the node with the larger index until both meet. */
  function CommonAncestor(ns: seq<Node>, a: nat, b: nat): (c: Option<nat>)
    requires Linked(ns) && a < |ns| && b < |ns|
    ensures c.Some? ==> c.value < |ns|
    decreases a + b
  {
    if a == b then Some(a)
    else if a < b then
      if Parent(ns, b).None? then None else CommonAncestor(ns, a, Parent(ns, b).value)
    else
      if Parent(ns, a).None? then None else CommonAncestor(ns, Parent(ns, a).value, b)
  }

  /** `c` is where `a` and `b` meet, or none when they never do. */
  ghost predicate IsMeet(ns: seq<Node>, c: Option<nat>, a: nat, b: nat)
    requires Linked(ns) && a < |ns| && b < |ns|
  {
    match c
    case Some(c) => IsLowestCommonAncestor(ns, c, a, b)
    case None => forall d: nat :: !IsCommonAncestor(ns, d, a, b)
  }

  /** The walk finds the lowest common ancestor, and nothing exactly when there is none. */
  lemma {:induction false} CommonAncestorIsLowest(ns: seq<Node>, a: nat, b: nat)
    requires Linked(ns) && a < |ns| && b < |ns|
    ensures IsMeet(ns, CommonAncestor(ns, a, b), a, b)
    decreases a + b
  {
    var c := CommonAncestor(ns, a, b);
    if a == b {
      assert IsCommonAncestor(ns, a, a, a);
    } else if a < b {
      if Parent(ns, b).Some? { CommonAncestorIsLowest(ns, a, Parent(ns, b).value); }
      RaiseKeepsMeet(ns, c, a, b);
    } else {
      if Parent(ns, a).Some? {
        CommonAncestorIsLowest(ns, Parent(ns, a).value, b);
        MeetSymmetric(ns, c, Parent(ns, a).value, b);
      }
      RaiseKeepsMeet(ns, c, b, a);
      MeetSymmetric(ns, c, b, a);
    }
  }

  /** Replacing a node by its parent keeps the meeting point with any smaller node. */
  lemma RaiseKeepsMeet(ns: seq<Node>, c: Option<nat>, a: nat, b: nat)
    requires Linked(ns) && a < b < |ns|
    requires if Parent(ns, b).None? then c.None? else IsMeet(ns, c, a, Parent(ns, b).value)
    ensures IsMeet(ns, c, a, b)
  {
    forall d: nat
      ensures IsCommonAncestor(ns, d, a, b) <==>
              Parent(ns, b).Some? && IsCommonAncestor(ns, d, a, Parent(ns, b).value)
    {
      AncestorOfParent(ns, d, b);
      if IsAncestor(ns, d, a) { AncestorPath(ns, d, a); }
    }
  }

  lemma MeetSymmetric(ns: seq<Node>, c: Option<nat>, a: nat, b: nat)
    requires Linked(ns) && a < |ns| && b < |ns|
    requires IsMeet(ns, c, a, b)
    ensures IsMeet(ns, c, b, a)
  {
    forall d: nat
      ensures IsCommonAncestor(ns, d, a, b) <==> IsCommonAncestor(ns, d, b, a)
    {
    }
  }

  lemma MeetUnique(ns: seq<Node>, c: Option<nat>, a: nat, b: nat)
    requires Linked(ns) && a < |ns| && b < |ns|
    requires IsMeet(ns, c, a, b)
    ensures c == CommonAncestor(ns, a, b)
  {
    CommonAncestorIsLowest(ns, a, b);
    var e := CommonAncestor(ns, a, b);
    if c.Some? {
      assert IsCommonAncestor(ns, c.value, a, b);
    }
    if e.Some? {
      assert IsCommonAncestor(ns, e.value, a, b);
    }
  }

  /** Nodes have a common ancestor exactly when they hang from the same root. */
  lemma CommonAncestorExists(ns: seq<Node>, a: nat, b: nat)
    requires Linked(ns) && a < |ns| && b < |ns|
    ensures CommonAncestor(ns, a, b).Some? <==> Root(ns, a) == Root(ns, b)
  {
    CommonAncestorIsLowest(ns, a, b);
    PathPrefix(ns, a, 0);
    PathPrefix(ns, b, 0);
    match CommonAncestor(ns, a, b)
    case Some(c) =>
      AncestorPath(ns, c, a);
      AncestorPath(ns, c, b);
    case None =>
      assert !IsCommonAncestor(ns, Root(ns, a), a, b);
  }

  /** The old node is the meeting point exactly when the new one extends it. */
  lemma MeetsAtSelf(ns: seq<Node>, a: nat, b: nat)
    requires Linked(ns) && a < |ns| && b < |ns|
    ensures CommonAncestor(ns, a, b) == Some(a) <==> IsAncestor(ns, a, b)
  {
    CommonAncestorIsLowest(ns, a, b);
    if IsAncestor(ns, a, b) {
      assert IsCommonAncestor(ns, a, a, b);
      var c := CommonAncestor(ns, a, b).value;
      assert IsAncestor(ns, a, c) && IsAncestor(ns, c, a);
    }
  }

  lemma CommonAncestorSymmetric(ns: seq<Node>, a: nat, b: nat)
    requires Linked(ns) && a < |ns| && b < |ns|
    ensures CommonAncestor(ns, a, b) == CommonAncestor(ns, b, a)
  {
    CommonAncestorIsLowest(ns, a, b);
    MeetSymmetric(ns, CommonAncestor(ns, a, b), a, b);
    MeetUnique(ns, CommonAncestor(ns, a, b), b, a);
  }

  /** Raising a node that the other does not descend from keeps their meeting point. */
  lemma RaiseNonAncestor(ns: seq<Node>, a: nat, b: nat)
    requires Linked(ns) && a < |ns| && b < |ns| && !IsAncestor(ns, a, b)
    ensures CommonAncestor(ns, a, b) ==
            if Parent(ns, a).None? then None else CommonAncestor(ns, Parent(ns, a).value, b)
  {
    var p := Parent(ns, a);
    var c := if p.None? then None else CommonAncestor(ns, p.value, b);
    if p.Some? { CommonAncestorIsLowest(ns, p.value, b); }
    forall d: nat
      ensures IsCommonAncestor(ns, d, a, b) <==> p.Some? && IsCommonAncestor(ns, d, p.value, b)
    {
      AncestorOfParent(ns, d, a);
    }
    MeetUnique(ns, c, a, b);
  }

  /** Distinct nodes at one height that do meet can be raised together. */
  lemma RaiseBoth(ns: seq<Node>, a: nat, b: nat)
    requires Linked(ns) && a < |ns| && b < |ns| && a != b && ns[a].height == ns[b].height
    ensures CommonAncestor(ns, a, b) ==
            if Parent(ns, a).None? || Parent(ns, b).None? then None
            else CommonAncestor(ns, Parent(ns, a).value, Parent(ns, b).value)
  {
    assert NodeOk(ns, a) && NodeOk(ns, b);
    RaiseNonAncestor(ns, a, b);
    if Parent(ns, a).Some? {
      var p := Parent(ns, a).value;
      CommonAncestorSymmetric(ns, p, b);
      RaiseNonAncestor(ns, b, p);
      CommonAncestorSymmetric(ns, p, Parent(ns, b).value);
    }
  }

  /** Two nodes on one path meet at the lower of them. */
  lemma BothOnPath(ns: seq<Node>, tip: nat, a: nat, b: nat)
    requires Linked(ns) && tip < |ns| && IsAncestor(ns, a, tip) && IsAncestor(ns, b, tip)
    ensures CommonAncestor(ns, a, b) == Some(Path(ns, tip)[Min(ns[a].height, ns[b].height)])
  {
    if ns[a].height <= ns[b].height {
      AncestorsNested(ns, a, b, tip);
      MeetsAtSelf(ns, a, b);
    } else {
      AncestorsNested(ns, b, a, tip);
      MeetsAtSelf(ns, b, a);
      CommonAncestorSymmetric(ns, a, b);
    }
  }

  /** A node's path parts from another's exactly above their meeting point. */
  lemma AncestorOnOtherPath(ns: seq<Node>, c: nat, i: nat, tip: nat)
    requires Linked(ns) && i < |ns| && tip < |ns| && IsAncestor(ns, c, i)
    ensures IsAncestor(ns, c, tip) <==>
            CommonAncestor(ns, i, tip).Some? && ns[c].height <= ns[CommonAncestor(ns, i, tip).value].height
  {
    CommonAncestorIsLowest(ns, i, tip);
    match CommonAncestor(ns, i, tip)
    case None =>
      assert !IsCommonAncestor(ns, c, i, tip);
    case Some(m) =>
      if ns[c].height <= ns[m].height {
        AncestorsNested(ns, c, m, i);
        AncestorTransitive(ns, c, m, tip);
      }
      if IsAncestor(ns, c, tip) {
        assert IsCommonAncestor(ns, c, i, tip);
      }
  }
}
