/** Marking a subtree and listing replayable side branches (tree.rs). */
module Subtrees {
  import opened Wrappers
  import opened Chain

  function CountUnmarked(marks: seq<bool>): nat {
    if marks == [] then 0
    else CountUnmarked(marks[..|marks| - 1]) + if marks[|marks| - 1] then 0 else 1
  }

  lemma {:induction false} MarkingCountsDown(marks: seq<bool>, i: nat)
    requires i < |marks| && !marks[i]
    ensures CountUnmarked(marks[i := true]) == CountUnmarked(marks) - 1
  {
    var last := |marks| - 1;
    if i < last {
      MarkingCountsDown(marks[..last], i);
      assert marks[i := true][..last] == marks[..last][i := true];
    } else {
      assert marks[i := true][..last] == marks[..last];
    }
  }

  /** `list` holds exactly the children of `p` among the first `n` nodes. */
  ghost predicate ListsChildren(ns: seq<Node>, n: nat, p: nat, list: seq<nat>)
    requires n <= |ns|
  {
    forall c: nat :: c in list <==> c < n && ns[c].parent == Some(p)
  }

  predicate ChildrenMarked(ns: seq<Node>, marks: seq<bool>, i: nat)
    requires |marks| == |ns|
  {
    forall c: nat :: c < |ns| && ns[c].parent == Some(i) ==> marks[c]
  }

  /** Marks that hold the root and pass from parent to child hold every descendant. */
  lemma {:induction false} MarksReachDescendants(ns: seq<Node>, marks: seq<bool>, root: nat, i: nat)
    requires Linked(ns) && |marks| == |ns| && root < |ns| && marks[root]
    requires forall k: nat :: k < |ns| && marks[k] ==> ChildrenMarked(ns, marks, k)
    requires i < |ns| && IsAncestor(ns, root, i)
    ensures marks[i]
  {
    AncestorOfParent(ns, root, i);
    if i != root {
      var p := Parent(ns, i).value;
      MarksReachDescendants(ns, marks, root, p);
      assert ChildrenMarked(ns, marks, p);
    }
  }

  // ---- Side branches ----

  /** A valid node off the tip's path, under the tip's root, with no more work than the tip. */
  predicate Replayable(ns: seq<Node>, tip: nat, i: nat)
    requires Linked(ns) && tip < |ns| && i < |ns|
  {
    && !IsAncestor(ns, i, tip)
    && !ns[i].status.Invalid?
    && Root(ns, i) == Root(ns, tip)
    && ns[i].chainwork <= ns[tip].chainwork
  }

  /** The replayable nodes among the first `n`, in index order. */
  function SideNodes(ns: seq<Node>, tip: nat, n: nat): seq<nat>
    requires Linked(ns) && tip < |ns| && n <= |ns|
  {
    if n == 0 then []
    else SideNodes(ns, tip, n - 1) + if Replayable(ns, tip, n - 1) then [n - 1] else []
  }

  /** One look at the parent decides: a node is replayable when its parent is kept. */
  lemma ReplayableByParent(ns: seq<Node>, tip: nat, i: nat)
    requires Linked(ns) && tip < |ns| && i < |ns|
    ensures Replayable(ns, tip, i) <==>
            && Parent(ns, i).Some?
            && !IsAncestor(ns, i, tip) && !ns[i].status.Invalid? && ns[i].chainwork <= ns[tip].chainwork
            && (IsAncestor(ns, Parent(ns, i).value, tip) || Replayable(ns, tip, Parent(ns, i).value))
  {
    assert NodeOk(ns, i);
    PathPrefix(ns, tip, 0);
    if Parent(ns, i).Some? {
      var p := Parent(ns, i).value;
      if IsAncestor(ns, p, tip) { AncestorPath(ns, p, tip); }
    }
  }
}
