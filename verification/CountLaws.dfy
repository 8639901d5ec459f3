/** Chain transaction counts over every run of connects and disconnects (count.rs, tree.rs, disconnect.rs). */
module CountLaws {
  import opened Wrappers
  import opened Bounded
  import opened TxCounts
  import opened Chain
  import opened TreeModel

  /** Counts survive the wire except an established zero, which reads back as unknown. */
  lemma WireRoundTrip(c: ChainTxCount, raw: u64)
    ensures ChainTxCount.FromWire(c.ToWire()) == c <==> c != Established(0)
    ensures ChainTxCount.FromWire(raw).ToWire() == raw
  {
  }

  /** Transactions in the blocks from the root to a node, each block's count given by its hash. */
  function PathCount(ns: seq<Node>, txs: Hash -> u64, i: nat): nat
    requires Linked(ns) && i < |ns|
  {
    txs(ns[i].hash) + if Parent(ns, i).None? then 0 else PathCount(ns, txs, Parent(ns, i).value)
  }

  /** A known count is the exact number of transactions on the path. */
  predicate CountExact(ns: seq<Node>, txs: Hash -> u64, i: nat, count: ChainTxCount)
    requires Linked(ns) && i < |ns|
  {
    count.Established? ==> count.count == PathCount(ns, txs, i)
  }

  ghost predicate CountsExact(ns: seq<Node>, txs: Hash -> u64)
    requires Linked(ns)
  {
    forall i: nat :: i < |ns| ==> CountExact(ns, txs, i, ns[i].txCount)
  }

  /** A tree together with the applied tip and the count published for it. */
  datatype Ledger = Ledger(tree: Tree, applied: Option<(nat, ChainTxCount)>)

  datatype Event =
    | Insert(header: Header, hash: Hash, status: Status)
    | Invalidated(root: nat)
    | Connect(id: nat)
    | Disconnect

  ghost predicate LedgerOk(s: Ledger, txs: Hash -> u64) {
    && Inv(s.tree) && CountsExact(s.tree.nodes, txs)
    && (s.applied.Some? ==>
          s.applied.value.0 < |s.tree.nodes| && CountExact(s.tree.nodes, txs, s.applied.value.0, s.applied.value.1))
  }

  /** Connecting records a node's count; disconnecting restores its parent's by subtraction. */
  ghost function Step(s: Ledger, txs: Hash -> u64, event: Event): Ledger
    requires LedgerOk(s, txs)
  {
    var ns := s.tree.nodes;
    match event
    case Insert(header, hash, status) => s.(tree := Apply(s.tree, InsertHeader(header, hash, status)))
    case Invalidated(root) => s.(tree := Apply(s.tree, InvalidateSubtree(root)))
    case Connect(id) =>
      if id >= |ns| then s
      else
        var count := RecordedCount(ns, id, txs(ns[id].hash));
        Ledger(s.tree.(nodes := SetCount(ns, id, count)), Some((id, count)))
    case Disconnect =>
      if s.applied.None? || Parent(ns, s.applied.value.0).None? then s
      else
        var (id, applied) := s.applied.value;
        var parent, count := Parent(ns, id).value, applied.Rewind(txs(ns[id].hash));
        Ledger(s.tree.(nodes := SetCount(ns, parent, count)), Some((parent, count)))
  }

  lemma {:induction false} PathCountFrame(ns: seq<Node>, ns': seq<Node>, txs: Hash -> u64, i: nat)
    requires Linked(ns) && Linked(ns') && SameLinks(ns, ns') && i < |ns|
    ensures PathCount(ns', txs, i) == PathCount(ns, txs, i)
  {
    assert SameAt(ns, ns', i);
    if Parent(ns, i).Some? { PathCountFrame(ns, ns', txs, Parent(ns, i).value); }
  }

  /** What a connect records is exact, and unknown exactly when the parent is or the sum overflows. */
  lemma RecordedIsExact(ns: seq<Node>, txs: Hash -> u64, id: nat)
    requires Linked(ns) && CountsExact(ns, txs) && id < |ns|
    ensures CountExact(ns, txs, id, RecordedCount(ns, id, txs(ns[id].hash)))
    ensures RecordedCount(ns, id, txs(ns[id].hash)).Established? <==>
            (Parent(ns, id).None? || ns[Parent(ns, id).value].txCount.Established?) && PathCount(ns, txs, id) <= U64_MAX
  {
    assert NodeOk(ns, id);
    if Parent(ns, id).Some? {
      var p := Parent(ns, id).value;
      assert CountExact(ns, txs, p, ns[p].txCount);
    }
  }

  lemma SetKeepsExact(s: Ledger, txs: Hash -> u64, id: nat, count: ChainTxCount)
    requires LedgerOk(s, txs) && id < |s.tree.nodes| && CountExact(s.tree.nodes, txs, id, count)
    ensures LedgerOk(Ledger(s.tree.(nodes := SetCount(s.tree.nodes, id, count)), Some((id, count))), txs)
  {
    var ns, ns' := s.tree.nodes, SetCount(s.tree.nodes, id, count);
    CountKeepsInv(s.tree, id, count);
    forall i: nat | i < |ns'|
      ensures CountExact(ns', txs, i, ns'[i].txCount)
    {
      assert CountExact(ns, txs, i, ns[i].txCount);
      PathCountFrame(ns, ns', txs, i);
    }
  }

  lemma GrowKeepsExact(s: Ledger, txs: Hash -> u64, change: Change)
    requires LedgerOk(s, txs) && (change.InsertHeader? || change.InvalidateSubtree?)
    ensures LedgerOk(s.(tree := Apply(s.tree, change)), txs)
  {
    ApplyKeepsInv(s.tree, change);
    var ns, ns' := s.tree.nodes, Apply(s.tree, change).nodes;
    KeepsCounts(s.tree, change);
    forall i: nat | i < |ns'|
      ensures CountExact(ns', txs, i, ns'[i].txCount)
    {
      if i < |ns| {
        assert CountExact(ns, txs, i, ns[i].txCount);
        PathCountFrame(ns, ns', txs, i);
      }
    }
    if s.applied.Some? { PathCountFrame(ns, ns', txs, s.applied.value.0); }
  }

  /** Insertions and invalidations leave recorded counts alone; new nodes start unknown. */
  lemma KeepsCounts(t: Tree, change: Change)
    requires Inv(t) && (change.InsertHeader? || change.InvalidateSubtree?)
    ensures var ns' := Apply(t, change).nodes;
            |t.nodes| <= |ns'|
            && (forall i: nat :: i < |t.nodes| ==> ns'[i].txCount == t.nodes[i].txCount)
            && (forall i: nat :: |t.nodes| <= i < |ns'| ==> ns'[i].txCount == Unknown)
  {
    if change.InvalidateSubtree? && change.root < |t.nodes| {
      TipSurvives(t, change.root);
    }
  }

  lemma StepKeepsOk(s: Ledger, txs: Hash -> u64, event: Event)
    requires LedgerOk(s, txs)
    ensures LedgerOk(Step(s, txs, event), txs)
  {
    var ns := s.tree.nodes;
    match event
    case Insert(header, hash, status) => GrowKeepsExact(s, txs, InsertHeader(header, hash, status));
    case Invalidated(root) => GrowKeepsExact(s, txs, InvalidateSubtree(root));
    case Connect(id) =>
      if id < |ns| {
        RecordedIsExact(ns, txs, id);
        SetKeepsExact(s, txs, id, RecordedCount(ns, id, txs(ns[id].hash)));
      }
    case Disconnect =>
      if s.applied.Some? && Parent(ns, s.applied.value.0).Some? {
        var (id, applied) := s.applied.value;
        SetKeepsExact(s, txs, Parent(ns, id).value, applied.Rewind(txs(ns[id].hash)));
      }
  }

  ghost function Run(txs: Hash -> u64, events: seq<Event>): (s: Ledger)
    ensures LedgerOk(s, txs)
  {
    if events == [] then Ledger(EMPTY, None)
    else
      var before := Run(txs, events[..|events| - 1]);
      StepKeepsOk(before, txs, events[|events| - 1]);
      Step(before, txs, events[|events| - 1])
  }

  /**
   After every run of insertions, invalidations, connects and disconnects, each known count,
   on any node and at the applied tip, is the exact number of transactions on its path.
   */
  lemma EveryRunCountsExactly(txs: Hash -> u64, events: seq<Event>, i: nat)
    requires i < |Run(txs, events).tree.nodes|
    ensures var s := Run(txs, events);
            && (s.tree.nodes[i].txCount.Established? ==>
                  s.tree.nodes[i].txCount.count == PathCount(s.tree.nodes, txs, i))
            && (s.applied.Some? && s.applied.value.1.Established? ==>
                  s.applied.value.1.count == PathCount(s.tree.nodes, txs, s.applied.value.0))
  {
    var s := Run(txs, events);
    assert CountExact(s.tree.nodes, txs, i, s.tree.nodes[i].txCount);
  }

  /** A disconnect never loses a known count: what it subtracts is part of the exact sum. */
  lemma RewindNeverForgets(txs: Hash -> u64, events: seq<Event>)
    requires var s := Run(txs, events); s.applied.Some? && s.applied.value.1.Established?
    ensures var s := Run(txs, events);
            var (id, applied) := s.applied.value;
            && id < |s.tree.nodes|
            && applied.Rewind(txs(s.tree.nodes[id].hash)).Established?
  {
    var s := Run(txs, events);
    var (id, applied) := s.applied.value;
    assert CountExact(s.tree.nodes, txs, id, applied);
  }

  /** So after any run the applied count is known after a disconnect exactly when it was known before. */
  lemma DisconnectKeepsKnown(txs: Hash -> u64, events: seq<Event>)
    requires Run(txs, events).applied.Some?
    ensures var s, s' := Run(txs, events), Run(txs, events + [Disconnect]);
            s'.applied.Some? && (s'.applied.value.1.Established? <==> s.applied.value.1.Established?)
  {
    assert (events + [Disconnect])[..|events|] == events;
    if Run(txs, events).applied.value.1.Established? {
      RewindNeverForgets(txs, events);
    }
  }
}
