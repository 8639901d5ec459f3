/** What every run of background validation keeps, wherever its crashes fall. */
module AssumeUtxoLaws {
  import opened Wrappers
  import opened AssumeUtxo

  // ---- The reference: connecting the pinned blocks in order ----

  /** The contents after the first `n` pinned blocks, or nothing once one is invalid. */
  function Fold<S>(env: Env<S>, n: nat): Option<S>
    requires n <= |env.blocks|
  {
    if n == 0 then Some(env.empty)
    else
      match Fold(env, n - 1)
      case None => None
      case Some(contents) => env.connect(contents, env.blocks[n - 1])
  }

  lemma {:induction false} FoldStops<S>(env: Env<S>, m: nat, n: nat)
    requires m <= n <= |env.blocks| && Fold(env, m).None?
    ensures Fold(env, n).None?
  {
    if m < n {
      FoldStops(env, m, n - 1);
    }
  }

  /** The pinned chain connects to the base and gives the pinned count and commitment. */
  predicate Genuine<S>(env: Env<S>) {
    var end := Fold(env, |env.blocks|);
    && end.Some?
    && env.txCount(end.value) == env.chainTxCount
    && env.commitment(end.value) == env.expected
  }

  // ---- The invariant ----

  ghost predicate CheckpointOk<S>(env: Env<S>, disk: Disk<S>, c: CheckpointRef) {
    && c.generation < |disk.saved|
    && Pinned(env, c.tip)
    && var saved := disk.saved[c.generation];
    && saved.Some? && saved.value.tip == c.tip
    && Fold(env, c.tip.height + 1) == Some(saved.value.contents)
  }

  ghost predicate PendingOk<S>(env: Env<S>, disk: Disk<S>, p: Tip)
    requires disk.status.Validating?
  {
    && p.height <= disk.status.historical.height + 1
    && (disk.status.checkpoint.Some? ==> disk.status.checkpoint.value.tip.height < p.height)
    && Pinned(env, p)
    && p in disk.staged && disk.staged[p] == env.blocks[p.height]
    && Fold(env, p.height).Some?
  }

  ghost predicate BodiesStored<S>(env: Env<S>, bodies: set<Tip>, height: nat)
    requires height < |env.blocks|
  {
    forall h: nat :: h <= height ==> BodyStored(env, bodies, h)
  }

  ghost predicate RecordOk<S>(env: Env<S>, disk: Disk<S>)
    requires env.Ok() && disk.status.Validating?
  {
    var v := disk.status;
    && v.baseHeight == env.Base() && v.baseHash == env.blocks[env.Base()].hash
    && v.expected == env.expected && v.chainTxCount == env.chainTxCount
    && v.historical.height < env.Base() && Pinned(env, v.historical)
    && (v.checkpoint.Some? ==>
          CheckpointOk(env, disk, v.checkpoint.value) && v.checkpoint.value.tip.height <= v.historical.height)
    && (v.pending.Some? ==> PendingOk(env, disk, v.pending.value))
    && BodiesStored(env, disk.bodies, v.historical.height)
  }

  ghost predicate ContentsOk<S>(env: Env<S>, cs: Chainstate<S>) {
    && Applied(cs) <= |env.blocks|
    && Fold(env, Applied(cs)) == Some(cs.contents)
    && (cs.tip.Some? ==> Pinned(env, cs.tip.value))
  }

  /** Memory never runs more than one block ahead of the record, and never behind its checkpoint. */
  ghost predicate PhaseOk<S>(env: Env<S>, st: State<S>)
    requires env.Ok() && Has(st) && st.disk.status.Validating?
  {
    var n, v := Applied(Cs(st)), st.disk.status;
    && (v.checkpoint.Some? ==> v.checkpoint.value.tip.height < n)
    && match st.process.phase
       case Idle => n <= v.historical.height + 1 || st.process.closed
       case Begun(b, archived) =>
         && n <= v.historical.height + 1 && n <= env.Base() && b == env.blocks[n]
         && (archived ==> n <= v.historical.height)
       case Connected(archived) =>
         && 0 < n <= v.historical.height + 2
         && (archived ==> n <= v.historical.height + 1)
       case Published(c) =>
         && 0 < n <= v.historical.height + 2 && n <= env.Base()
         && Cs(st).tip == Some(c.tip) && CheckpointOk(env, st.disk, c)
  }

  ghost predicate DiskOk<S>(env: Env<S>, disk: Disk<S>)
    requires env.Ok()
  {
    match disk.status
    case Validating(_, _, _, _, _, _, _) => RecordOk(env, disk)
    case Finalized(height, hash, validated) =>
      Genuine(env) && height == env.Base() && hash == env.blocks[height].hash && validated == env.expected
    case _ => true
  }

  ghost predicate ProcessOk<S>(env: Env<S>, st: State<S>)
    requires env.Ok()
  {
    if Has(st) then
      && ContentsOk(env, Cs(st))
      && (st.disk.status.Failed? ==> st.process.closed && st.process.phase == Idle)
      && (st.disk.status.Failed? || st.disk.status.Validating?)
      && (st.disk.status.Validating? ==> st.process.role == AssumedActive && RecordOk(env, st.disk) && PhaseOk(env, st))
    else st.process.Up? ==> st.process.role == Ordinary && st.process.phase == Idle && !st.disk.status.Validating?
  }

  ghost predicate Inv<S>(env: Env<S>, st: State<S>)
    requires env.Ok()
  {
    DiskOk(env, st.disk) && ProcessOk(env, st)
  }

  // ---- Runs fed with the named blocks ----

  /** A step is only begun with the block the manager names next. */
  predicate Named<S>(env: Env<S>, st: State<S>, e: Event) {
    e.Begin? && Has(st) ==> Applied(Cs(st)) < |env.blocks| && e.block == env.blocks[Applied(Cs(st))]
  }

  predicate NamedRun<S>(env: Env<S>, st: State<S>, es: seq<Event>)
    requires env.Ok()
    decreases |es|
  {
    es == [] || (Named(env, st, es[0]) && NamedRun(env, Do(env, st, es[0]), es[1..]))
  }

  lemma StartedKeeps<S>(env: Env<S>, st: State<S>, b: Block)
    requires env.Ok() && Inv(env, st) && Named(env, st, Begin(b))
    ensures Inv(env, Started(env, st, b))
  {
  }

  lemma JoinedKeeps<S>(env: Env<S>, st: State<S>, fault: Fault)
    requires env.Ok() && Inv(env, st)
    ensures Inv(env, Joined(env, st, fault))
  {
  }

  lemma SavingKeeps<S>(env: Env<S>, st: State<S>)
    requires env.Ok() && Inv(env, st)
    ensures Inv(env, Saving(env, st))
  {
  }

  /** Recording the next block, or an earlier one again, leaves no gap in the stored bodies. */
  lemma BodiesGrow<S>(env: Env<S>, bodies: set<Tip>, height: nat, tip: Tip)
    requires Pinned(env, tip) && height < |env.blocks| && tip.height <= height + 1
    requires BodiesStored(env, bodies, height)
    ensures BodiesStored(env, bodies + {tip}, tip.height)
  {
    forall h: nat | h <= tip.height ensures BodyStored(env, bodies + {tip}, h) {
      assert h <= height ==> BodyStored(env, bodies, h);
    }
  }

  lemma JudgedKeeps<S>(env: Env<S>, st: State<S>)
    requires env.Ok() && Inv(env, st) && Has(st) && Cs(st).tip.Some? && st.disk.status.Validating?
    requires Cs(st).tip.value.height == env.Base()
    ensures Inv(env, Judged(env, st))
  {
  }

  lemma ProgressKeeps<S>(env: Env<S>, st: State<S>, checkpoint: Option<CheckpointRef>)
    requires env.Ok() && Inv(env, st) && Has(st) && Cs(st).tip.Some? && st.disk.status.Validating?
    requires st.process.phase.Connected? || st.process.phase.Published?
    requires Cs(st).tip.value.height < env.Base()
    requires checkpoint.Some? ==>
               && CheckpointOk(env, st.disk, checkpoint.value)
               && checkpoint.value.tip.height <= Cs(st).tip.value.height
    ensures Inv(env, Write(st, Progress(st.disk.status, Cs(st).tip.value, checkpoint), Cs(st).tip.value))
  {
    var tip := Cs(st).tip.value;
    BodiesGrow(env, st.disk.bodies, st.disk.status.historical.height, tip);
    var s := Write(st, Progress(st.disk.status, tip, checkpoint), tip);
    assert RecordOk(env, s.disk);
    assert PhaseOk(env, s);
  }

  lemma RecordedKeeps<S>(env: Env<S>, st: State<S>)
    requires env.Ok() && Inv(env, st)
    ensures Inv(env, Recorded(env, st))
  {
    if Has(st) && Cs(st).tip.Some? && st.disk.status.Validating? {
      var status, height := st.disk.status, Cs(st).tip.value.height;
      match st.process.phase
      case Published(c) => ProgressKeeps(env, st, Some(c));
      case Connected(archived) =>
        if archived {
        } else if height == env.Base() {
          JudgedKeeps(env, st);
        } else {
          ProgressKeeps(env, st, status.checkpoint);
        }
      case _ =>
    }
  }

  lemma ReplayedKeeps<S>(env: Env<S>, st: State<S>)
    requires env.Ok() && Inv(env, st)
    ensures Inv(env, Replayed(env, st))
  {
  }

  lemma InstalledKeeps<S>(env: Env<S>, st: State<S>)
    requires env.Ok() && Inv(env, st)
    ensures Inv(env, Installed(env, st))
  {
  }

  lemma RestartedKeeps<S>(env: Env<S>, st: State<S>)
    requires env.Ok() && Inv(env, st)
    ensures Inv(env, Restarted(env, st))
  {
  }

  lemma RetiredKeeps<S>(env: Env<S>, st: State<S>, g: nat)
    requires env.Ok() && Inv(env, st)
    ensures Inv(env, Retired(st, g))
  {
  }

  lemma DoKeeps<S>(env: Env<S>, st: State<S>, e: Event)
    requires env.Ok() && Inv(env, st) && Named(env, st, e)
    ensures Inv(env, Do(env, st, e))
  {
    match e
    case Install => InstalledKeeps(env, st);
    case Restore => RestartedKeeps(env, st);
    case Retire(g) => RetiredKeeps(env, st, g);
    case Begin(b) => StartedKeeps(env, st, b);
    case Connect(fault) => JoinedKeeps(env, st, fault);
    case Publish => SavingKeeps(env, st);
    case Commit => RecordedKeeps(env, st);
    case Replay => ReplayedKeeps(env, st);
    case _ =>
  }

  lemma {:induction false} RunKeeps<S>(env: Env<S>, st: State<S>, es: seq<Event>)
    requires env.Ok() && Inv(env, st) && NamedRun(env, st, es)
    ensures Inv(env, Run(env, st, es))
    decreases |es|
  {
    if es != [] {
      DoKeeps(env, st, es[0]);
      RunKeeps(env, Do(env, st, es[0]), es[1..]);
    }
  }

  // ---- What holds in every run from a blank node ----

  /**
   However steps, checkpoints, faults, crashes and openings interleave, the contents held at a height
   are the pinned blocks up to it connected in order, and only a genuine chain is ever finalized.
   */
  lemma EveryRunHoldsTheFold<S>(env: Env<S>, es: seq<Event>)
    requires env.Ok() && NamedRun(env, Blank(), es)
    ensures var st := Run(env, Blank(), es);
            && (Has(st) ==> Applied(Cs(st)) <= |env.blocks| && Fold(env, Applied(Cs(st))) == Some(Cs(st).contents))
            && (st.disk.status.Finalized? ==> Genuine(env) && st.disk.status.validated == env.expected)
            && (st.process.Up? && st.disk.status.Validating? ==> st.process.role == AssumedActive)
  {
    RunKeeps(env, Blank(), es);
  }

  /** Every record a run leaves keeps checkpoint, progress, pending block and base in order. */
  lemma EveryRecordIsOrdered<S>(env: Env<S>, es: seq<Event>)
    requires env.Ok() && NamedRun(env, Blank(), es)
    ensures var v := Run(env, Blank(), es).disk.status;
            v.Validating? ==>
              && v.historical.height < v.baseHeight == env.Base()
              && Pinned(env, v.historical)
              && (v.checkpoint.Some? ==> v.checkpoint.value.tip.height <= v.historical.height)
              && (v.pending.Some? ==> Pinned(env, v.pending.value) && v.pending.value.height <= v.historical.height + 1)
              && (v.pending.Some? && v.checkpoint.Some? ==>
                    v.checkpoint.value.tip.height < v.pending.value.height)
  {
    RunKeeps(env, Blank(), es);
  }

  lemma {:induction false} TerminalRecordsStay<S>(env: Env<S>, st: State<S>, es: seq<Event>)
    requires env.Ok() && (st.disk.status.Finalized? || st.disk.status.Failed?)
    ensures Run(env, st, es).disk.status == st.disk.status
    decreases |es|
  {
    if es != [] {
      TerminalRecordsStay(env, Do(env, st, es[0]), es[1..]);
    }
  }

  // ---- The verdict ----

  /** A failure that no storage fault caused condemns the chain itself. */
  lemma FailureIsDeserved<S>(env: Env<S>, st: State<S>, e: Event)
    requires env.Ok() && Inv(env, st) && Named(env, st, e) && e != Connect(Fatal)
    requires st.disk.status.Failed? ==> !Genuine(env)
    ensures Do(env, st, e).disk.status.Failed? ==> !Genuine(env)
  {
    if e.Connect? && Has(st) && st.process.phase.Begun? && st.disk.status.Validating? {
      var n := Applied(Cs(st));
      if Fold(env, n + 1).None? {
        FoldStops(env, n + 1, |env.blocks|);
      }
    }
  }

  lemma {:induction false} FailuresAreDeserved<S>(env: Env<S>, st: State<S>, es: seq<Event>)
    requires env.Ok() && Inv(env, st) && NamedRun(env, st, es) && Connect(Fatal) !in es
    requires st.disk.status.Failed? ==> !Genuine(env)
    ensures Run(env, st, es).disk.status.Failed? ==> !Genuine(env)
    decreases |es|
  {
    if es != [] {
      FailureIsDeserved(env, st, es[0]);
      DoKeeps(env, st, es[0]);
      FailuresAreDeserved(env, Do(env, st, es[0]), es[1..]);
    }
  }

  /** Which verdict a run reaches depends on the pinned chain alone. */
  lemma EveryVerdictIsTheChains<S>(env: Env<S>, es: seq<Event>)
    requires env.Ok() && NamedRun(env, Blank(), es) && Connect(Fatal) !in es
    ensures var status := Run(env, Blank(), es).disk.status;
            && (status.Finalized? ==> Genuine(env))
            && (status.Failed? ==> !Genuine(env))
  {
    RunKeeps(env, Blank(), es);
    FailuresAreDeserved(env, Blank(), es);
  }

  /** A fatal storage error meets a begun block while the record is Validating. */
  predicate FatalMeets<S>(st: State<S>, e: Event) {
    e == Connect(Fatal) && Has(st) && st.process.phase.Begun? && st.disk.status.Validating?
  }

  /** On a genuine chain one event fails the record exactly when it is such a fault. */
  lemma GenuineFailsIff<S>(env: Env<S>, st: State<S>, e: Event)
    requires env.Ok() && Genuine(env) && Inv(env, st) && Named(env, st, e) && !st.disk.status.Failed?
    ensures Do(env, st, e).disk.status.Failed? <==> FatalMeets(st, e)
  {
    if e != Connect(Fatal) {
      FailureIsDeserved(env, st, e);
    }
  }

  /** The event at `k` of the run is such a fault. */
  ghost predicate FatalAt<S>(env: Env<S>, st: State<S>, es: seq<Event>, k: nat)
    requires env.Ok() && k < |es|
  {
    FatalMeets(Run(env, st, es[..k]), es[k])
  }

  /** A run over a genuine chain ends Failed exactly when such a fault occurred in it. */
  lemma {:induction false} GenuineRunFailsIff<S>(env: Env<S>, st: State<S>, es: seq<Event>)
    requires env.Ok() && Genuine(env) && Inv(env, st) && NamedRun(env, st, es) && !st.disk.status.Failed?
    ensures Run(env, st, es).disk.status.Failed? <==> exists k: nat :: k < |es| && FatalAt(env, st, es, k)
    decreases |es|
  {
    if es != [] {
      var next := Do(env, st, es[0]);
      DoKeeps(env, st, es[0]);
      GenuineFailsIff(env, st, es[0]);
      assert es[..0] == [];
      assert FatalAt(env, st, es, 0) <==> FatalMeets(st, es[0]);
      forall k: nat | k < |es[1..]| ensures FatalAt(env, st, es, k + 1) <==> FatalAt(env, next, es[1..], k) {
        assert es[..k + 1][1..] == es[1..][..k];
      }
      if next.disk.status.Failed? {
        TerminalRecordsStay(env, next, es[1..]);
      } else {
        GenuineRunFailsIff(env, next, es[1..]);
        if k: nat :| k < |es| && FatalAt(env, st, es, k) {
          assert k > 0;
          assert FatalAt(env, next, es[1..], k - 1);
        }
        if j: nat :| j < |es[1..]| && FatalAt(env, next, es[1..], j) {
          assert FatalAt(env, st, es, j + 1);
        }
      }
    }
  }
}
