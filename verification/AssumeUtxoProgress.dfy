/** Certified progress moves only upwards: no undo row it rests on is ever pruned. */
module AssumeUtxoProgress {
  import opened AssumeUtxo
  import opened AssumeUtxoLaws

  predicate HasRow<S>(env: Env<S>, undo: set<Tip>, h: nat)
    requires h < |env.blocks|
  {
    Tip(h, env.blocks[h].hash) in undo
  }

  /** The undo rows of the first `n` pinned blocks are all there. */
  ghost predicate Rows<S>(env: Env<S>, undo: set<Tip>, n: nat)
    requires n <= |env.blocks|
  {
    forall h: nat :: h < n ==> HasRow(env, undo, h)
  }

  ghost predicate RecordKept<S>(env: Env<S>, disk: Disk<S>)
    requires env.Ok() && disk.status.Validating? && RecordOk(env, disk)
  {
    && Rows(env, disk.undo, disk.status.historical.height)
    && (disk.status.checkpoint.Some? ==> Rows(env, disk.undo, disk.status.checkpoint.value.tip.height + 1))
    && (disk.status.pending.Some? ==> Rows(env, disk.undo, disk.status.pending.value.height))
  }

  ghost predicate PhaseKept<S>(env: Env<S>, st: State<S>)
    requires env.Ok() && Inv(env, st) && Has(st) && st.disk.status.Validating?
  {
    var n, height := Applied(Cs(st)), st.disk.status.historical.height;
    match st.process.phase
    case Idle => st.process.closed || Rows(env, st.disk.undo, n)
    case Begun(b, archived) =>
      Rows(env, st.disk.undo, n) && if archived then HasRow(env, st.disk.undo, n) else height <= n
    case Connected(archived) =>
      if archived then Rows(env, st.disk.undo, n) else Rows(env, st.disk.undo, n - 1) && height <= n - 1
    case Published(_) => Rows(env, st.disk.undo, n - 1) && height <= n - 1
  }

  ghost predicate Kept<S>(env: Env<S>, st: State<S>)
    requires env.Ok() && Inv(env, st)
  {
    st.disk.status.Validating? ==> RecordKept(env, st.disk) && (Has(st) ==> PhaseKept(env, st))
  }

  lemma RowsExtend<S>(env: Env<S>, undo: set<Tip>, n: nat, tip: Tip)
    requires Pinned(env, tip) && n <= |env.blocks| && Rows(env, undo, n)
    ensures Rows(env, undo + {tip}, n)
    ensures n == tip.height ==> Rows(env, undo + {tip}, n + 1)
  {
    forall h: nat | h < n ensures HasRow(env, undo + {tip}, h) {
      assert HasRow(env, undo, h);
    }
  }

  ghost predicate NotLower(v: DiskStatus, w: DiskStatus) {
    v.Validating? && w.Validating? ==> v.historical.height <= w.historical.height
  }

  lemma StartKept<S>(env: Env<S>, st: State<S>, b: Block)
    requires env.Ok() && Inv(env, st) && Kept(env, st) && Named(env, st, Begin(b))
    ensures Inv(env, Started(env, st, b)) && Kept(env, Started(env, st, b))
    ensures NotLower(st.disk.status, Started(env, st, b).disk.status)
  {
    StartedKeeps(env, st, b);
    if Has(st) && st.disk.status.Validating? {
      var n := Applied(Cs(st));
      assert n < st.disk.status.historical.height ==> HasRow(env, st.disk.undo, n);
    }
  }

  lemma CommitKept<S>(env: Env<S>, st: State<S>)
    requires env.Ok() && Inv(env, st) && Kept(env, st)
    ensures Inv(env, Recorded(env, st)) && Kept(env, Recorded(env, st))
    ensures NotLower(st.disk.status, Recorded(env, st).disk.status)
  {
    RecordedKeeps(env, st);
    if Has(st) && st.disk.status.Validating? && Cs(st).tip.Some? {
      var tip, undo := Cs(st).tip.value, st.disk.undo;
      if st.process.phase == Connected(false) || st.process.phase.Published? {
        RowsExtend(env, undo, tip.height, tip);
        if st.disk.status.checkpoint.Some? {
          RowsExtend(env, undo, st.disk.status.checkpoint.value.tip.height + 1, tip);
        }
      }
    }
  }

  lemma ReplayKept<S>(env: Env<S>, st: State<S>)
    requires env.Ok() && Inv(env, st) && Kept(env, st)
    ensures Inv(env, Replayed(env, st)) && Kept(env, Replayed(env, st))
  {
    ReplayedKeeps(env, st);
  }

  lemma ConnectKept<S>(env: Env<S>, st: State<S>, fault: Fault)
    requires env.Ok() && Inv(env, st) && Kept(env, st)
    ensures Inv(env, Joined(env, st, fault)) && Kept(env, Joined(env, st, fault))
    ensures NotLower(st.disk.status, Joined(env, st, fault).disk.status)
  {
    JoinedKeeps(env, st, fault);
  }

  lemma PublishKept<S>(env: Env<S>, st: State<S>)
    requires env.Ok() && Inv(env, st) && Kept(env, st)
    ensures Inv(env, Saving(env, st)) && Kept(env, Saving(env, st))
  {
    SavingKeeps(env, st);
  }

  lemma RestoreKept<S>(env: Env<S>, st: State<S>)
    requires env.Ok() && Inv(env, st) && Kept(env, st)
    ensures Inv(env, Restarted(env, st)) && Kept(env, Restarted(env, st))
  {
    RestartedKeeps(env, st);
  }

  lemma DoKept<S>(env: Env<S>, st: State<S>, e: Event)
    requires env.Ok() && Inv(env, st) && Kept(env, st) && Named(env, st, e)
    ensures Inv(env, Do(env, st, e)) && Kept(env, Do(env, st, e))
    ensures NotLower(st.disk.status, Do(env, st, e).disk.status)
  {
    DoKeeps(env, st, e);
    match e
    case Begin(b) => StartKept(env, st, b);
    case Connect(fault) => ConnectKept(env, st, fault);
    case Publish => PublishKept(env, st);
    case Restore => RestoreKept(env, st);
    case Commit => CommitKept(env, st);
    case Replay => ReplayKept(env, st);
    case _ =>
  }

  lemma {:induction false} RunKept<S>(env: Env<S>, st: State<S>, es: seq<Event>)
    requires env.Ok() && Inv(env, st) && Kept(env, st) && NamedRun(env, st, es)
    ensures Inv(env, Run(env, st, es)) && Kept(env, Run(env, st, es))
    ensures NotLower(st.disk.status, Run(env, st, es).disk.status)
    decreases |es|
  {
    if es != [] {
      var next := Do(env, st, es[0]);
      DoKept(env, st, es[0]);
      RunKept(env, next, es[1..]);
      if next.disk.status.Finalized? || next.disk.status.Failed? {
        TerminalRecordsStay(env, next, es[1..]);
      }
    }
  }

  lemma {:induction false} RunSplits<S>(env: Env<S>, st: State<S>, es: seq<Event>, fs: seq<Event>)
    requires env.Ok()
    ensures Run(env, st, es + fs) == Run(env, Run(env, st, es), fs)
    ensures NamedRun(env, st, es + fs) <==> NamedRun(env, st, es) && NamedRun(env, Run(env, st, es), fs)
    decreases |es|
  {
    if es == [] {
      assert es + fs == fs;
    } else {
      assert (es + fs)[0] == es[0] && (es + fs)[1..] == es[1..] + fs;
      RunSplits(env, Do(env, st, es[0]), es[1..], fs);
    }
  }

  /** Between any two moments of any run, certified progress does not fall. */
  lemma ProgressNeverFalls<S>(env: Env<S>, es: seq<Event>, fs: seq<Event>)
    requires env.Ok() && NamedRun(env, Blank(), es + fs)
    ensures NotLower(Run(env, Blank(), es).disk.status, Run(env, Blank(), es + fs).disk.status)
  {
    RunSplits(env, Blank(), es, fs);
    RunKept(env, Blank(), es);
    RunKept(env, Run(env, Blank(), es), fs);
  }

  /** In every run an idle open process holds the undo row of each block it has connected. */
  lemma EveryRunKeepsItsRows<S>(env: Env<S>, es: seq<Event>, h: nat)
    requires env.Ok() && NamedRun(env, Blank(), es)
    requires var st := Run(env, Blank(), es);
             && Has(st) && st.disk.status.Validating? && st.process.phase == Idle && !st.process.closed
             && h < Applied(Cs(st))
    ensures h < |env.blocks| && HasRow(env, Run(env, Blank(), es).disk.undo, h)
  {
    RunKept(env, Blank(), es);
  }

  // ---- What a damaged store would do ----

  /** The step's block is connected; recording it lowers the record exactly when it lies below. */
  lemma RecordLowersIff<S>(env: Env<S>, st: State<S>)
    requires env.Ok() && Inv(env, st) && Has(st) && st.disk.status.Validating? && st.process.phase.Connected?
    requires Applied(Cs(st)) <= env.Base()
    ensures var s := Recorded(env, Saving(env, st));
            && s.disk.status.Validating?
            && (s.disk.status.historical.height < st.disk.status.historical.height
                <==> !st.process.phase.archived && Applied(Cs(st)) - 1 < st.disk.status.historical.height)
  {
    SavingKeeps(env, st);
  }

  /** A step treats its block as archived exactly when it is certified and its undo row is kept. */
  lemma BeginArchivesIff<S>(env: Env<S>, st: State<S>)
    requires env.Ok() && Inv(env, st) && Has(st) && st.disk.status.Validating?
    requires !st.process.closed && st.process.phase == Idle && Applied(Cs(st)) < env.Base()
    ensures var n := Applied(Cs(st));
            var s := Started(env, st, env.blocks[n]);
            && Inv(env, s) && Has(s) && Cs(s) == Cs(st) && !s.process.closed
            && s.disk.status.Validating? && s.disk.status.historical == st.disk.status.historical
            && s.process.phase == Begun(env.blocks[n], n <= st.disk.status.historical.height && HasRow(env, st.disk.undo, n))
  {
    StartedKeeps(env, st, env.blocks[Applied(Cs(st))]);
  }

  /**
   Given any rows at all on disk, one step lowers the recorded height exactly when the block is below
   it and its undo row is gone, which no run brings about.
   */
  lemma StepLowersIff<S>(env: Env<S>, st: State<S>)
    requires env.Ok() && Inv(env, st) && Has(st) && st.disk.status.Validating?
    requires !st.process.closed && st.process.phase == Idle
    requires Applied(Cs(st)) < env.Base() && Fold(env, Applied(Cs(st)) + 1).Some?
    ensures var n := Applied(Cs(st));
            var s := Run(env, st, StepEvents(env.blocks[n], NoFault));
            && s.disk.status.Validating?
            && (s.disk.status.historical.height < st.disk.status.historical.height
                <==> n < st.disk.status.historical.height && !HasRow(env, st.disk.undo, n))
  {
    var b := env.blocks[Applied(Cs(st))];
    var begun := Started(env, st, b);
    BeginArchivesIff(env, st);
    JoinedKeeps(env, begun, NoFault);
    RecordLowersIff(env, Joined(env, begun, NoFault));
    StepUnfolds(env, st, b, NoFault);
  }

  lemma StepUnfolds<S>(env: Env<S>, st: State<S>, b: Block, fault: Fault)
    requires env.Ok()
    ensures Run(env, st, StepEvents(b, fault))
         == Recorded(env, Saving(env, Joined(env, Started(env, st, b), fault)))
    ensures NamedRun(env, st, StepEvents(b, fault)) <==> Named(env, st, Begin(b))
  {
    var s1 := Started(env, st, b);
    var s2 := Joined(env, s1, fault);
    var s3 := Saving(env, s2);
    assert StepEvents(b, fault)[1..] == [Connect(fault), Publish, Commit];
    assert [Connect(fault), Publish, Commit][1..] == [Publish, Commit] && [Publish, Commit][1..] == [Commit];
    assert Run(env, s3, [Commit]) == Recorded(env, s3);
    assert Run(env, s2, [Publish, Commit]) == Run(env, s3, [Commit]);
    assert Run(env, s1, [Connect(fault), Publish, Commit]) == Run(env, s2, [Publish, Commit]);
    assert NamedRun(env, s3, [Commit]) && NamedRun(env, s2, [Publish, Commit]);
    assert NamedRun(env, s1, [Connect(fault), Publish, Commit]);
  }
}
