/** Reopening after a crash, and the verdict that validation is then driven to. */
module AssumeUtxoRecovery {
  import opened Bounded
  import opened AssumeUtxo
  import opened AssumeUtxoLaws
  import opened AssumeUtxoProgress

  /** An open process that can take its next step. */
  ghost predicate Ready<S>(env: Env<S>, st: State<S>)
    requires env.Ok()
  {
    && Inv(env, st) && Has(st) && st.disk.status.Validating?
    && !st.process.closed && st.process.phase == Idle
  }

  // ---- Opening ----

  /** The checkpoint the record names, if any, was saved with a known transaction count. */
  predicate CheckpointCounted<S>(env: Env<S>, disk: Disk<S>) {
    disk.status.Validating? && disk.status.checkpoint.Some? ==>
      var g := disk.status.checkpoint.value.generation;
      g < |disk.saved| && disk.saved[g].Some? && env.txCount(disk.saved[g].value.contents) != 0
  }

  /** A record the node wrote itself opens exactly when it is not Failed and its checkpoint's count is known. */
  lemma OpensIff<S>(env: Env<S>, disk: Disk<S>)
    requires env.Ok() && Inv(env, State(disk, Down))
    ensures Opened(env, disk).Ok? <==> !disk.status.Failed? && CheckpointCounted(env, disk)
    ensures Opened(env, disk).Ok? && disk.status.Validating? ==> Ready(env, State(disk, Opened(env, disk).value))
  {
    RestartedKeeps(env, State(disk, Down));
  }

  function Replays(k: nat): seq<Event> { seq(k, _ => Replay) }

  /** How many blocks recovery reconnects before it takes up the pending one. */
  function Backlog<S>(st: State<S>): nat {
    if Has(st) && st.disk.status.Validating? && st.disk.status.pending.Some?
      && Applied(Cs(st)) < st.disk.status.pending.value.height
    then st.disk.status.pending.value.height - Applied(Cs(st))
    else 0
  }

  /** Recovery finds every body it needs and stops at the pending block, having changed no record. */
  lemma {:induction false} ReplayReachesIntent<S>(env: Env<S>, st: State<S>)
    requires env.Ok() && Ready(env, st)
    ensures var s := Run(env, st, Replays(Backlog(st)));
            && Ready(env, s) && s.disk == st.disk && Backlog(s) == 0
            && Applied(Cs(s)) == Applied(Cs(st)) + Backlog(st)
    decreases Backlog(st)
  {
    var k := Backlog(st);
    if k > 0 {
      var next := Do(env, st, Replay);
      DoKeeps(env, st, Replay);
      ReplayAdvances(env, st);
      ReplayReachesIntent(env, next);
      assert Replays(k)[0] == Replay && Replays(k)[1..] == Replays(k - 1);
    }
  }

  lemma ReplayAdvances<S>(env: Env<S>, st: State<S>)
    requires env.Ok() && Ready(env, st) && Backlog(st) > 0
    ensures var s := Replayed(env, st);
            && Has(s) && s.disk == st.disk && !s.process.closed && s.process.phase == Idle
            && Applied(Cs(s)) == Applied(Cs(st)) + 1
  {
    var n, p := Applied(Cs(st)), st.disk.status.pending.value;
    assert BodyStored(env, st.disk.bodies, n);
    if Fold(env, n + 1).None? {
      FoldStops(env, n + 1, p.height);
    }
  }

  // ---- Stepping to the base ----

  /** One undisturbed step with the block the manager names; nothing when it names none. */
  function NamedStep<S>(env: Env<S>, st: State<S>): State<S>
    requires env.Ok()
  {
    if !Has(st) || Applied(Cs(st)) >= |env.blocks| then st
    else Run(env, st, StepEvents(env.blocks[Applied(Cs(st))], NoFault))
  }

  function Steps<S>(env: Env<S>, st: State<S>, k: nat): State<S>
    requires env.Ok()
    decreases k
  {
    if k == 0 then st else Steps(env, NamedStep(env, st), k - 1)
  }

  ghost predicate Decided<S>(env: Env<S>, status: DiskStatus) {
    if Genuine(env) then status.Finalized? else status.Failed?
  }

  lemma BeginReady<S>(env: Env<S>, st: State<S>)
    requires env.Ok() && Ready(env, st)
    ensures var n := Applied(Cs(st));
            && n < |env.blocks|
            && var s := Do(env, st, Begin(env.blocks[n]));
            && Inv(env, s) && Has(s) && Cs(s) == Cs(st) && s.disk.status.Validating?
            && !s.process.closed && s.process.phase.Begun? && s.process.phase.block == env.blocks[n]
            && (s.process.phase.archived ==> n < env.Base())
  {
    StartedKeeps(env, st, env.blocks[Applied(Cs(st))]);
  }

  lemma CommitReady<S>(env: Env<S>, st: State<S>)
    requires env.Ok() && Inv(env, st) && Has(st) && st.disk.status.Validating?
    requires !st.process.closed && st.process.phase.Connected?
    requires st.process.phase.archived ==> Applied(Cs(st)) < |env.blocks|
    ensures var s := Do(env, Do(env, st, Publish), Commit);
            if Applied(Cs(st)) < |env.blocks| then Ready(env, s) && Applied(Cs(s)) == Applied(Cs(st))
            else Decided(env, s.disk.status)
  {
    DoKeeps(env, st, Publish);
    DoKeeps(env, Do(env, st, Publish), Commit);
  }

  /** A step either condemns the chain, connects one more block, or decides at the base. */
  lemma StepAdvancesOrDecides<S>(env: Env<S>, st: State<S>)
    requires env.Ok() && Ready(env, st)
    ensures var n, s := Applied(Cs(st)), NamedStep(env, st);
            && n < |env.blocks|
            && if Fold(env, n + 1).Some? && n < env.Base() then Ready(env, s) && Applied(Cs(s)) == n + 1
               else Decided(env, s.disk.status)
  {
    BeginReady(env, st);
    var n := Applied(Cs(st));
    var b := env.blocks[n];
    var begun := Do(env, st, Begin(b));
    var connected := Do(env, begun, Connect(NoFault));
    DoKeeps(env, begun, Connect(NoFault));
    StepUnfolds(env, st, b, NoFault);
    if Fold(env, n + 1).None? {
      FoldStops(env, n + 1, |env.blocks|);
      assert connected.disk.status.Failed?;
    } else {
      CommitReady(env, connected);
    }
  }

  lemma {:induction false} DecidedStays<S>(env: Env<S>, st: State<S>, k: nat)
    requires env.Ok() && Decided(env, st.disk.status)
    ensures Decided(env, Steps(env, st, k).disk.status)
    decreases k
  {
    if k > 0 {
      if Has(st) && Applied(Cs(st)) < |env.blocks| {
        TerminalRecordsStay(env, st, StepEvents(env.blocks[Applied(Cs(st))], NoFault));
      }
      DecidedStays(env, NamedStep(env, st), k - 1);
    }
  }

  /** Stepping an open node through the remaining blocks always ends in the chain's own verdict. */
  lemma {:induction false} SteppingDecides<S>(env: Env<S>, st: State<S>, k: nat)
    requires env.Ok() && Ready(env, st) && Applied(Cs(st)) + k >= |env.blocks|
    ensures Decided(env, Steps(env, st, k).disk.status)
    decreases k
  {
    StepAdvancesOrDecides(env, st);
    var next := NamedStep(env, st);
    if Decided(env, next.disk.status) {
      DecidedStays(env, next, k - 1);
    } else {
      SteppingDecides(env, next, k - 1);
    }
  }

  /** The process dies, opens again, reconnects its backlog and steps to the base. */
  function Resume<S>(env: Env<S>, st: State<S>): State<S>
    requires env.Ok()
  {
    var restarted := Run(env, st, [Crash, Restore]);
    Steps(env, Run(env, restarted, Replays(Backlog(restarted))), |env.blocks|)
  }

  /**
   Stop any run anywhere once a snapshot is installed, reopen and carry on undisturbed: the record
   ends Finalized when the pinned chain is genuine and Failed when it is not.
   */
  lemma CrashesDoNotChangeTheVerdict<S>(env: Env<S>, es: seq<Event>)
    requires env.Ok() && NamedRun(env, Blank(), es) && Connect(Fatal) !in es
    requires !Run(env, Blank(), es).disk.status.Uninitialized? && CheckpointCounted(env, Run(env, Blank(), es).disk)
    ensures Decided(env, Resume(env, Run(env, Blank(), es)).disk.status)
  {
    var st := Run(env, Blank(), es);
    RunKeeps(env, Blank(), es);
    EveryVerdictIsTheChains(env, es);
    var down := Do(env, st, Crash);
    DoKeeps(env, st, Crash);
    assert [Crash, Restore][1..] == [Restore];
    assert Run(env, down, [Restore]) == Do(env, down, Restore);
    var restarted := Run(env, st, [Crash, Restore]);
    if st.disk.status.Validating? {
      OpensIff(env, st.disk);
      ReplayReachesIntent(env, restarted);
      SteppingDecides(env, Run(env, restarted, Replays(Backlog(restarted))), |env.blocks|);
    } else {
      DecidedStays(env, restarted, |env.blocks|);
    }
  }

  // ---- How much a crash can cost ----

  /** No checkpoint is overdue: progress is less than one interval past the last one. */
  predicate Current<S>(env: Env<S>, status: DiskStatus) {
    status.Validating? ==> !IsDue(env, status, status.historical.height)
  }

  lemma RecordStaysCurrent<S>(env: Env<S>, st: State<S>)
    requires env.Ok() && Inv(env, st) && Current(env, st.disk.status)
    ensures Current(env, Recorded(env, st).disk.status)
  {
  }

  lemma DoStaysCurrent<S>(env: Env<S>, st: State<S>, e: Event)
    requires env.Ok() && Inv(env, st) && Current(env, st.disk.status)
    ensures Current(env, Do(env, st, e).disk.status)
  {
    if e.Commit? {
      RecordStaysCurrent(env, st);
    }
  }

  lemma {:induction false} RunStaysCurrent<S>(env: Env<S>, st: State<S>, es: seq<Event>)
    requires env.Ok() && Inv(env, st) && NamedRun(env, st, es) && Current(env, st.disk.status)
    ensures Current(env, Run(env, st, es).disk.status)
    decreases |es|
  {
    if es != [] {
      DoKeeps(env, st, es[0]);
      DoStaysCurrent(env, st, es[0]);
      RunStaysCurrent(env, Do(env, st, es[0]), es[1..]);
    }
  }

  /** Wherever a run stops, reopening reconnects at most one checkpoint interval of blocks. */
  lemma RecoveryIsShort<S>(env: Env<S>, es: seq<Event>)
    requires env.Ok() && NamedRun(env, Blank(), es)
    ensures var disk := Run(env, Blank(), es).disk;
            Opened(env, disk).Ok? ==> Backlog(State(disk, Opened(env, disk).value)) <= Max(env.interval, 1)
  {
    RunKeeps(env, Blank(), es);
    RunStaysCurrent(env, Blank(), es);
  }
}
