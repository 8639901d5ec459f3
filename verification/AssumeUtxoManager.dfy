/** The manager itself: its methods update the record and the historical slot as the pieces say. */
module AssumeUtxoManagers {
  import opened Wrappers
  import opened Bounded
  import opened Chain
  import opened AssumeUtxo
  import opened AssumeUtxoLaws
  import opened AssumeUtxoProgress
  import opened AssumeUtxoRecovery

  datatype StepError =
    | NoHistoricalChainstate
    | PrevHashMismatch
    | Shutdown
    | StorageError(fault: Fault)
    | ConnectPastTarget
    | TargetHashMismatch
    | InvalidBlock
    | TransactionCountMismatch
    | CommitmentMismatch

  /** A snapshot whose contents were hashed: its base and the commitment found. */
  datatype VerifiedSnapshot = VerifiedSnapshot(height: nat, baseHash: Hash, hashSerialized: Hash)

  datatype InstallError =
    | AlreadyActive
    | FullRevalidationRequired
    | UntrustedHeight(height: nat)
    | BlockHashMismatch
    | SnapshotCommitmentMismatch
    | NodeClosed
    | SnapshotHeaderMissing
    | SnapshotHeaderInvalid
    | SnapshotHeaderHeightMismatch
    | BaseNotOnBestHeaderChain
    | SnapshotTipNotSettled
    | ActivationBehindTip

  /** The base's header in the tree: whether it is Invalid, its height and work, and whether the best chain holds it. */
  datatype BaseHeader = BaseHeader(invalid: bool, height: nat, work: u256, onBestChain: bool)

  datatype TipRecord = TipRecord(hash: Hash, height: nat, txCount: u64)

  /** What the active chainstate holds when a snapshot is to replace it; `work` is the applied tip's. */
  datatype ActiveView = ActiveView(base: Option<BaseHeader>, durable: Option<TipRecord>, applied: Option<TipRecord>, work: u256)

  /** Why the active chainstate does not give way to the snapshot, in the order the reasons are looked at. */
  function ActiveRefusal(active: ActiveView, height: nat): Option<InstallError> {
    if active.base.None? then Some(SnapshotHeaderMissing)
    else if active.base.value.invalid then Some(SnapshotHeaderInvalid)
    else if active.base.value.height != height then Some(SnapshotHeaderHeightMismatch)
    else if !active.base.value.onBestChain then Some(BaseNotOnBestHeaderChain)
    else if active.durable != active.applied then Some(SnapshotTipNotSettled)
    else if active.applied.Some? && active.base.value.work <= active.work then Some(ActivationBehindTip)
    else None
  }

  datatype OpenError = Refused(refusal: Refusal) | StepFailed(error: StepError)

  datatype Advance = Complete | ReplayPending | MissingBody(tip: Tip)

  // ---- How a step ends ----

  /** Why connecting block `b` on `cs` is refused, if it is. */
  function ConnectError<S>(env: Env<S>, cs: Chainstate<S>, b: Block, fault: Fault): Option<StepError> {
    var h := Applied(cs);
    if fault != NoFault then Some(StorageError(fault))
    else if h >= |env.blocks| then Some(ConnectPastTarget)
    else if h == |env.blocks| - 1 && b.hash != env.blocks[h].hash then Some(TargetHashMismatch)
    else if env.connect(cs.contents, b).None? then Some(InvalidBlock)
    else None
  }

  /** What the comparison at the base objects to, if anything. */
  function VerdictError<S>(env: Env<S>, status: DiskStatus, cs: Chainstate<S>): Option<StepError>
    requires status.Validating? && cs.tip.Some?
  {
    if cs.tip.value.hash != status.baseHash then Some(TargetHashMismatch)
    else if env.txCount(cs.contents) != status.chainTxCount then Some(TransactionCountMismatch)
    else if env.commitment(cs.contents) != status.expected then Some(CommitmentMismatch)
    else None
  }

  /** The error a connected block's recording ends in. */
  function RecordError<S>(env: Env<S>, st: State<S>): Option<StepError> {
    if Has(st) && Cs(st).tip.Some? && st.disk.status.Validating? && st.process.phase == Connected(false)
      && Cs(st).tip.value.height == st.disk.status.baseHeight
    then VerdictError(env, st.disk.status, Cs(st))
    else None
  }

  function StepOutcome<S>(env: Env<S>, st: State<S>, b: Block, fault: Fault): Result<Tip, StepError>
  {
    if !Has(st) then Err(NoHistoricalChainstate)
    else if b.prev != ExpectedPrev(Cs(st)) then Err(PrevHashMismatch)
    else if st.process.closed then Err(Shutdown)
    else if !st.disk.status.Validating? then Err(NoHistoricalChainstate)
    else
      match ConnectError(env, Cs(st), b, fault)
      case Some(error) => Err(error)
      case None =>
        match RecordError(env, Joined(env, Started(env, st, b), fault))
        case Some(error) => Err(error)
        case None => Ok(Tip(Applied(Cs(st)), b.hash))
  }

  // ---- How recovery ends ----

  /** Why the next backlog block could not be reconnected. */
  function Obstacle<S>(env: Env<S>, st: State<S>): ReplayObstacle
    requires Has(st)
  {
    if st.process.closed then ProcessClosed
    else if Applied(Cs(st)) >= |env.blocks| then NoBlockNamed
    else if !BodyStored(env, st.disk.bodies, Applied(Cs(st))) then BodyMissing
    else BlockRefused
  }

  lemma {:induction false} ReplaysHold<S>(env: Env<S>, st: State<S>, k: nat)
    requires env.Ok() && Has(st)
    ensures var s := Run(env, st, Replays(k));
            && Has(s) && s.disk == st.disk && s.process.closed == st.process.closed && s.process.phase == st.process.phase
            && Applied(Cs(st)) <= Applied(Cs(s))
            && (st.disk.status.Validating? && st.disk.status.pending.Some?
                && Applied(Cs(st)) <= st.disk.status.pending.value.height ==>
                  Applied(Cs(s)) <= st.disk.status.pending.value.height)
    decreases k
  {
    if k > 0 {
      assert Replays(k)[0] == Replay && Replays(k)[1..] == Replays(k - 1);
      ReplaysHold(env, Replayed(env, st), k - 1);
    }
  }

  /** The pending block's staged body. */
  function PendingBlock<S>(env: Env<S>, disk: Disk<S>, p: Tip): Option<Block>
    requires env.Ok()
  {
    if p.height == 0 && p.hash == env.blocks[0].hash then Some(env.blocks[0])
    else if p in disk.staged && disk.staged[p].hash == p.hash then Some(disk.staged[p])
    else None
  }

  /** Why the pending block of this state is not taken up, if it is not. */
  function RecoveryRefusal<S>(env: Env<S>, st: State<S>): Option<Refusal>
    requires env.Ok() && Has(st) && st.disk.status.Validating? && st.disk.status.pending.Some?
  {
    var p := st.disk.status.pending.value;
    if p.height > st.disk.status.baseHeight then Some(IntentExceedsBase)
    else if Applied(Cs(st)) > p.height then Some(CheckpointAheadOfIntent)
    else
      var replayed := Run(env, st, Replays(Backlog(st)));
      ReplaysHold(env, st, Backlog(st));
      if Backlog(replayed) > 0 then Some(ReplayFailed(Obstacle(env, replayed)))
      else if PendingBlock(env, st.disk, p).None? then Some(MissingPendingBody)
      else None
  }

  predicate Recoverable<S>(st: State<S>) {
    Has(st) && st.disk.status.Validating? && st.disk.status.pending.Some?
  }

  /** The state recovery leaves: the backlog reconnected, then one step with the pending block. */
  function Recovered<S>(env: Env<S>, st: State<S>): State<S>
    requires env.Ok()
  {
    if !Recoverable(st) then st
    else
      var replayed := Run(env, st, Replays(Backlog(st)));
      match RecoveryRefusal(env, st)
      case Some(IntentExceedsBase) => st
      case Some(CheckpointAheadOfIntent) => st
      case Some(_) => replayed
      case None => Run(env, replayed, StepEvents(PendingBlock(env, st.disk, st.disk.status.pending.value).value, NoFault))
  }

  function RecoveryOutcome<S>(env: Env<S>, st: State<S>): Result<Option<Tip>, OpenError>
    requires env.Ok()
  {
    if !Recoverable(st) then Ok(None)
    else
      match RecoveryRefusal(env, st)
      case Some(refusal) => Err(Refused(refusal))
      case None =>
        var replayed := Run(env, st, Replays(Backlog(st)));
        match StepOutcome(env, replayed, PendingBlock(env, st.disk, st.disk.status.pending.value).value, NoFault)
        case Err(error) => Err(StepFailed(error))
        case Ok(tip) => Ok(Some(tip))
  }

  /** Recovery refuses no record the node wrote itself. */
  lemma RecoveryIsNotRefused<S>(env: Env<S>, disk: Disk<S>)
    requires env.Ok() && Inv(env, State(disk, Down)) && CheckpointCounted(env, disk)
    requires disk.status.Validating? && disk.status.pending.Some?
    ensures Opened(env, disk).Ok? && Has(State(disk, Opened(env, disk).value))
    ensures RecoveryRefusal(env, State(disk, Opened(env, disk).value)) == None
  {
    OpensIff(env, disk);
    ReplayReachesIntent(env, State(disk, Opened(env, disk).value));
  }

  lemma NotRefused<S>(env: Env<S>, disk: Disk<S>)
    requires env.Ok()
    ensures Inv(env, State(disk, Down)) && CheckpointCounted(env, disk) && !disk.status.Failed? ==>
              && Opened(env, disk).Ok?
              && var st := State(disk, Opened(env, disk).value);
              Recoverable(st) ==> RecoveryRefusal(env, st) == None
  {
    if Inv(env, State(disk, Down)) && CheckpointCounted(env, disk) && !disk.status.Failed? {
      OpensIff(env, disk);
      if disk.status.Validating? && disk.status.pending.Some? {
        RecoveryIsNotRefused(env, disk);
      }
    }
  }

  lemma {:induction false} ReplaysStick<S>(env: Env<S>, st: State<S>, k: nat)
    requires env.Ok() && Replayed(env, st) == st
    ensures Run(env, st, Replays(k)) == st
  {
    if k > 0 {
      assert Replays(k)[0] == Replay && Replays(k)[1..] == Replays(k - 1);
      ReplaysStick(env, st, k - 1);
    }
  }

  lemma ReplaysSplit<S>(env: Env<S>, st: State<S>, j: nat, k: nat)
    requires env.Ok() && j <= k
    ensures Run(env, st, Replays(k)) == Run(env, Run(env, st, Replays(j)), Replays(k - j))
  {
    assert Replays(k) == Replays(j) + Replays(k - j);
    RunSplits(env, st, Replays(j), Replays(k - j));
  }

  lemma ReplayOnce<S>(env: Env<S>, st: State<S>)
    requires env.Ok()
    ensures Run(env, st, Replays(1)) == Replayed(env, st)
  {
    assert Replays(1)[0] == Replay && Replays(1)[1..] == [];
  }

  lemma {:induction false} StepsEndWith<S>(env: Env<S>, st: State<S>, k: nat)
    requires env.Ok()
    ensures Steps(env, st, k + 1) == NamedStep(env, Steps(env, st, k))
    decreases k
  {
    if k > 0 {
      StepsEndWith(env, NamedStep(env, st), k - 1);
    }
  }

  // ---- The invariant reaches the manager ----

  lemma ActivationKeepsIfAny<S>(env: Env<S>, st: State<S>)
    requires env.Ok()
    ensures Inv(env, st) ==> Inv(env, Do(env, st, Install)) && Inv(env, Do(env, st, Close))
  {
    if Inv(env, st) {
      InstalledKeeps(env, st);
      DoKeeps(env, st, Close);
    }
  }

  /** A whole step fed the named block keeps the invariant. */
  lemma StepKeeps<S>(env: Env<S>, st: State<S>, b: Block, fault: Fault)
    requires env.Ok() && Inv(env, st) && Named(env, st, Begin(b))
    ensures Inv(env, Run(env, st, StepEvents(b, fault)))
  {
    StepUnfolds(env, st, b, fault);
    RunKeeps(env, st, StepEvents(b, fault));
  }

  lemma {:induction false} StepsKeep<S>(env: Env<S>, st: State<S>, k: nat)
    requires env.Ok() && Inv(env, st)
    ensures Inv(env, Steps(env, st, k))
    decreases k
  {
    if k > 0 {
      if Has(st) && Applied(Cs(st)) < |env.blocks| {
        StepKeeps(env, st, env.blocks[Applied(Cs(st))], NoFault);
      }
      StepsKeep(env, NamedStep(env, st), k - 1);
    }
  }

  lemma StepsKeepIfAny<S>(env: Env<S>, st: State<S>, k: nat)
    requires env.Ok()
    ensures Inv(env, st) ==> Inv(env, Steps(env, st, k))
  {
    if Inv(env, st) {
      StepsKeep(env, st, k);
    }
  }

  lemma {:induction false} ReplaysKeep<S>(env: Env<S>, st: State<S>, k: nat)
    requires env.Ok() && Inv(env, st)
    ensures Inv(env, Run(env, st, Replays(k)))
    decreases k
  {
    if k > 0 {
      assert Replays(k)[0] == Replay && Replays(k)[1..] == Replays(k - 1);
      ReplayedKeeps(env, st);
      ReplaysKeep(env, Replayed(env, st), k - 1);
    }
  }

  lemma RecoveredKeeps<S>(env: Env<S>, st: State<S>)
    requires env.Ok() && Inv(env, st)
    ensures Inv(env, Recovered(env, st))
  {
    if Recoverable(st) {
      var replayed := Run(env, st, Replays(Backlog(st)));
      ReplaysKeep(env, st, Backlog(st));
      ReplaysHold(env, st, Backlog(st));
      if RecoveryRefusal(env, st).None? {
        StepKeeps(env, replayed, PendingBlock(env, st.disk, st.disk.status.pending.value).value, NoFault);
      }
    }
  }

  /** An idle process with no block left to name no longer validates. */
  lemma NoNextMeansDone<S>(env: Env<S>, st: State<S>)
    requires env.Ok() && st.process.Up? && st.process.phase == Idle
    requires !Has(st) || (!st.process.closed && Applied(Cs(st)) >= |env.blocks|)
    ensures Inv(env, st) ==> !st.disk.status.Validating?
  {
  }

  /** Opening and recovering keeps the invariant, whether the process comes up or stays down. */
  lemma OpeningKeeps<S>(env: Env<S>, st: State<S>)
    requires env.Ok()
    ensures Inv(env, st) ==>
              && Inv(env, Recovered(env, Restarted(env, st)))
              && Inv(env, Recovered(env, Restarted(env, st)).(process := Down))
  {
    if Inv(env, st) {
      RestartedKeeps(env, st);
      RecoveredKeeps(env, Restarted(env, st));
      DoKeeps(env, Recovered(env, Restarted(env, st)), Crash);
    }
  }

  // ---- The manager ----

  class AssumeUtxoManager<S> {
    const env: Env<S>
    var status: DiskStatus
    var saved: seq<Option<Saved<S>>>
    var undo: set<Tip>
    var staged: map<Tip, Block>
    var bodies: set<Tip>
    var running: bool
    var historical: Option<Chainstate<S>>
    var role: Role
    var closed: bool
    ghost var phase: Phase

    ghost function View(): State<S>
      reads this
    {
      State(Disk(status, saved, undo, staged, bodies), if running then Up(historical, role, closed, phase) else Down)
    }

    /** Between calls no step is in progress, and before activation there is no history to validate. */
    ghost predicate Valid()
      reads this
    {
      env.Ok() && phase == Idle && (status.Uninitialized? ==> historical.None? && role == Ordinary)
    }

    /** A process that has never been started on a disk that has never held a snapshot. */
    constructor (env: Env<S>)
      requires env.Ok()
      ensures Valid() && this.env == env && View() == Blank()
    {
      this.env := env;
      status, saved, undo, staged, bodies := Uninitialized, [], {}, map[], {};
      running, historical, role, closed, phase := false, None, Ordinary, false, Idle;
    }

    /** Everything in memory is lost. */
    method Die()
      requires Valid()
      modifies this
      ensures Valid() && View() == Do(env, old(View()), Crash)
      ensures Inv(env, old(View())) ==> Inv(env, View())
    {
      running := false;
      historical, role, closed := None, Ordinary, false;
    }

    method CloseForRecovery()
      requires running
      modifies `closed, `phase
      ensures View() == ShutDown(old(View())) && phase == Idle
    {
      closed := true;
      phase := Idle;
    }

    /** Activates a snapshot that matches the pinned one, once in the life of a node; an unsettled tip closes it. */
    method InstallVerified(snapshot: VerifiedSnapshot, revalidating: bool, active: ActiveView)
      returns (error: Option<InstallError>)
      requires Valid() && running
      modifies `status, `role, `historical, `closed
      ensures Valid() && (Inv(env, old(View())) ==> Inv(env, View()))
      ensures View() == if error.None? then Do(env, old(View()), Install)
                        else if error == Some(SnapshotTipNotSettled) then Do(env, old(View()), Close)
                        else old(View())
      ensures error.None? <==>
                && old(status).Uninitialized? && !revalidating && !old(closed)
                && snapshot == VerifiedSnapshot(env.Base(), env.blocks[env.Base()].hash, env.expected)
                && active.base.Some? && !active.base.value.invalid && active.base.value.onBestChain
                && active.base.value.height == env.Base() && active.durable == active.applied
                && (active.applied.Some? ==> active.base.value.work > active.work)
      ensures error == Some(AlreadyActive) <==> !old(status).Uninitialized?
    {
      if !status.Uninitialized? {
        return Some(AlreadyActive);
      }
      if revalidating {
        return Some(FullRevalidationRequired);
      }
      var base := |env.blocks| - 1;
      if snapshot.height != base {
        return Some(UntrustedHeight(snapshot.height));
      }
      if snapshot.baseHash != env.blocks[base].hash {
        return Some(BlockHashMismatch);
      }
      if snapshot.hashSerialized != env.expected {
        return Some(SnapshotCommitmentMismatch);
      }
      if closed {
        return Some(NodeClosed);
      }
      ActivationKeepsIfAny(env, View());
      error := ActiveRefusal(active, base);
      if error == Some(SnapshotTipNotSettled) {
        closed := true;
      } else if error.None? {
        status := Validating(base, env.blocks[base].hash, env.expected, env.chainTxCount,
                             Tip(0, env.blocks[0].hash), None, None);
        role := AssumedActive;
        historical := Some(Chainstate(None, env.empty));
      }
    }

    method FailHistorical()
      requires running && historical.Some?
      modifies `status, `closed, `phase
      ensures View() == Fail(env, old(View())) && phase == Idle
    {
      CloseForRecovery();
      if status.Validating? {
        status := Failed(status.baseHeight, status.baseHash, status.expected, env.commitment(historical.value.contents));
      }
    }

    method BeginHistorical(b: Block) returns (r: Result<bool, StepError>)
      requires Valid() && running && historical.Some? && b.prev == ExpectedPrev(historical.value)
      modifies `status, `staged, `closed, `phase
      ensures View() == Started(env, old(View()), b)
      ensures r.Ok? ==> phase == Begun(b, r.value) && !closed
      ensures r.Err? ==> phase == Idle && r.error == if old(closed) then Shutdown else NoHistoricalChainstate
      ensures r.Ok? <==> !old(closed) && old(status).Validating?
    {
      if closed || !status.Validating? {
        r := Err(if closed then Shutdown else NoHistoricalChainstate);
        CloseForRecovery();
        return;
      }
      var tip := Tip(Applied(historical.value), b.hash);
      if tip.height < status.baseHeight && tip.height <= status.historical.height
        && tip.height < |env.blocks| && env.blocks[tip.height].hash == tip.hash && tip in undo
      {
        phase := Begun(b, true);
        return Ok(true);
      }
      if status.pending != Some(tip) {
        staged := staged[tip := b];
        status := status.(pending := Some(tip));
      }
      phase := Begun(b, false);
      return Ok(false);
    }

    method ConnectHistoricalBlock(b: Block, fault: Fault) returns (r: Result<bool, StepError>)
      requires Valid() && running && historical.Some?
      modifies `status, `staged, `historical, `closed, `phase
      ensures View() == Joined(env, Started(env, old(View()), b), fault)
      ensures r.Ok? ==> phase == Connected(r.value) && historical.Some? && historical.value.tip.Some?
      ensures r.Err? ==> phase == Idle && StepOutcome(env, old(View()), b, fault) == Err(r.error)
      ensures r.Ok? ==> historical.value.tip == Some(Tip(Applied(old(historical).value), b.hash))
      ensures r.Ok? ==> ConnectError(env, old(historical).value, b, fault) == None
      ensures r.Ok? ==> b.prev == ExpectedPrev(old(historical).value) && !old(closed) && old(status).Validating?
    {
      var cs := historical.value;
      if b.prev != ExpectedPrev(cs) {
        return Err(PrevHashMismatch);
      }
      var began := BeginHistorical(b);
      if began.Err? {
        return Err(began.error);
      }
      var height := Applied(cs);
      if fault == Fatal {
        FailHistorical();
        return Err(StorageError(Fatal));
      }
      if fault == Retryable || height >= |env.blocks| {
        phase := Idle;
        return Err(if fault == Retryable then StorageError(Retryable) else ConnectPastTarget);
      }
      if height == |env.blocks| - 1 && b.hash != env.blocks[height].hash {
        FailHistorical();
        return Err(TargetHashMismatch);
      }
      var contents := env.connect(cs.contents, b);
      if contents.None? {
        FailHistorical();
        return Err(InvalidBlock);
      }
      historical := Some(Chainstate(Some(Tip(height, b.hash)), contents.value));
      phase := Connected(began.value);
      return Ok(began.value);
    }

    method FinalizeHistoricalProgress() returns (error: Option<StepError>)
      requires running && historical.Some? && historical.value.tip.Some? && status.Validating?
      modifies `status, `undo, `bodies, `historical, `role, `closed, `phase
      ensures View() == Judged(env, old(View())) && phase == Idle
      ensures error == VerdictError(env, old(status), old(historical).value)
    {
      var cs := historical.value;
      var tip, actual := cs.tip.value, env.commitment(cs.contents);
      if tip.hash != status.baseHash {
        FailHistorical();
        return Some(TargetHashMismatch);
      }
      if env.txCount(cs.contents) != status.chainTxCount {
        FailHistorical();
        return Some(TransactionCountMismatch);
      }
      if actual != status.expected {
        FailHistorical();
        return Some(CommitmentMismatch);
      }
      status := Finalized(status.baseHeight, status.baseHash, actual);
      undo, bodies := undo + {tip}, bodies + {tip};
      role := Ordinary;
      historical := None;
      phase := Idle;
      return None;
    }

    /** The checkpoint the next record names: a new one when it is due, else the last. */
    method MaybePublishCheckpoint() returns (checkpoint: Option<CheckpointRef>)
      requires Recording(View()) && phase == Connected(false)
      modifies `saved, `phase
      ensures View() == Saving(env, old(View()))
      ensures phase == Connected(false) || phase.Published?
      ensures checkpoint == if phase.Published? then Some(phase.checkpoint) else status.checkpoint
      ensures phase.Connected? ==> !IsDue(env, status, historical.value.tip.value.height)
    {
      var cs := historical.value;
      checkpoint := status.checkpoint;
      var interval := Max(env.interval, 1);
      var due := if checkpoint.None? then interval else Min(checkpoint.value.tip.height + interval, U32_MAX);
      if cs.tip.value.height >= due {
        checkpoint := Some(CheckpointRef(|saved|, cs.tip.value));
        saved := saved + [Some(Saved(cs.tip.value, cs.contents))];
        phase := Published(checkpoint.value);
      }
    }

    method RecordHistoricalProgress() returns (error: Option<StepError>)
      requires running && historical.Some? && historical.value.tip.Some? && phase == Connected(false)
      modifies `status, `saved, `undo, `bodies, `historical, `role, `closed, `phase
      ensures View() == Recorded(env, Saving(env, old(View()))) && phase == Idle
      ensures error == RecordError(env, old(View()))
    {
      var tip := historical.value.tip.value;
      if !status.Validating? || tip.height > status.baseHeight {
        phase := Idle;
        return None;
      }
      if tip.height == status.baseHeight {
        error := FinalizeHistoricalProgress();
        return;
      }
      var checkpoint := MaybePublishCheckpoint();
      status := status.(historical := tip, pending := None, checkpoint := checkpoint);
      undo, bodies := undo + {tip}, bodies + {tip};
      phase := Idle;
      return None;
    }

    method StepHistorical(b: Block, fault: Fault) returns (r: Result<Tip, StepError>)
      requires Valid() && running
      modifies `status, `saved, `undo, `staged, `bodies, `historical, `role, `closed, `phase
      ensures Valid() && View() == Run(env, old(View()), StepEvents(b, fault))
      ensures r == StepOutcome(env, old(View()), b, fault)
    {
      StepUnfolds(env, View(), b, fault);
      if historical.None? {
        return Err(NoHistoricalChainstate);
      }
      var connected := ConnectHistoricalBlock(b, fault);
      if connected.Err? {
        return Err(connected.error);
      }
      var tip := historical.value.tip.value;
      if connected.value {
        phase := Idle;
        return Ok(tip);
      }
      var error := RecordHistoricalProgress();
      return if error.Some? then Err(error.value) else Ok(tip);
    }

    /** The block validation needs next; none when there is no history left to validate. */
    function NextHistoricalBlock(): (next: Result<Option<Tip>, StepError>)
      requires running
      reads this
      ensures next.Err? <==> historical.Some? && closed
      ensures next == Ok(None) <==> historical.None? || (!closed && Applied(historical.value) >= |env.blocks|)
      ensures next.Ok? && next.value.Some? ==>
                next.value.value.height == Applied(historical.value) && Pinned(env, next.value.value)
    {
      if historical.None? then Ok(None)
      else if closed then Err(Shutdown)
      else
        var height := Applied(historical.value);
        if height >= |env.blocks| then Ok(None) else Ok(Some(Tip(height, env.blocks[height].hash)))
    }

    /** Steps through at most eight blocks whose bodies are stored; `k` of them were attempted. */
    method AdvanceSteps() returns (r: Result<Advance, StepError>, ghost k: nat)
      requires Valid() && running
      modifies `status, `saved, `undo, `staged, `bodies, `historical, `role, `closed, `phase
      ensures Valid() && running && k <= 8 && View() == Steps(env, old(View()), k)
      ensures r == Ok(Complete) ==> NextHistoricalBlock() == Ok(None)
      ensures r == Ok(ReplayPending) ==> k == 8 && NextHistoricalBlock().Ok? && NextHistoricalBlock().value.Some?
      ensures r.Ok? && r.value.MissingBody? ==>
                && NextHistoricalBlock() == Ok(Some(r.value.tip))
                && r.value.tip.height < |env.blocks| && !BodyStored(env, bodies, r.value.tip.height)
    {
      k := 0;
      for i := 0 to 8
        invariant Valid() && running && k == i
        invariant View() == Steps(env, old(View()), k)
      {
        var next := NextHistoricalBlock();
        if next.Err? {
          return Err(next.error), k;
        }
        if next.value.None? {
          return Ok(Complete), k;
        }
        var tip := next.value.value;
        if tip.height != 0 && tip !in bodies {
          return Ok(MissingBody(tip)), k;
        }
        StepsEndWith(env, old(View()), k);
        var step := StepHistorical(env.blocks[tip.height], NoFault);
        k := k + 1;
        if step.Err? {
          return Err(step.error), k;
        }
      }
      var next := NextHistoricalBlock();
      if next.Err? {
        return Err(next.error), k;
      }
      return Ok(if next.value.Some? then ReplayPending else Complete), k;
    }

    /** The same; the invariant is kept, and Complete means that validation is over. */
    method AdvanceHistorical() returns (r: Result<Advance, StepError>, ghost k: nat)
      requires Valid() && running
      modifies `status, `saved, `undo, `staged, `bodies, `historical, `role, `closed, `phase
      ensures Valid() && running && k <= 8 && View() == Steps(env, old(View()), k)
      ensures Inv(env, old(View())) ==> Inv(env, View())
      ensures Inv(env, old(View())) && r == Ok(Complete) ==> !status.Validating?
      ensures r == Ok(Complete) ==> NextHistoricalBlock() == Ok(None)
      ensures r == Ok(ReplayPending) ==> k == 8 && NextHistoricalBlock().Ok? && NextHistoricalBlock().value.Some?
      ensures r.Ok? && r.value.MissingBody? ==>
                && NextHistoricalBlock() == Ok(Some(r.value.tip))
                && r.value.tip.height < |env.blocks| && !BodyStored(env, bodies, r.value.tip.height)
    {
      ghost var before := View();
      r, k := AdvanceSteps();
      StepsKeepIfAny(env, before, k);
      if r == Ok(Complete) {
        NoNextMeansDone(env, View());
      }
    }

    /** Reconnects the blocks below the pending one in memory, up to the first that cannot be. */
    method ReplayBacklog(target: nat) returns (complete: bool, obstacle: ReplayObstacle)
      requires Valid() && running && historical.Some?
      requires status.Validating? && status.pending.Some? && status.pending.value.height == target
      modifies `historical
      ensures Valid() && historical.Some?
      ensures View() == Run(env, old(View()), Replays(Backlog(old(View()))))
      ensures complete <==> Backlog(View()) == 0
      ensures !complete ==> obstacle == Obstacle(env, View())
    {
      ghost var st := View();
      ghost var k, j: nat := Backlog(st), 0;
      while Applied(historical.value) < target
        invariant historical.Some? && j <= k && j + Backlog(View()) == k
        invariant View() == Run(env, st, Replays(j))
        decreases target - Applied(historical.value)
      {
        var cs := historical.value;
        var height := Applied(cs);
        ReplaysSplit(env, st, j, k);
        if closed || height >= |env.blocks| || (height > 0 && Tip(height, env.blocks[height].hash) !in bodies) {
          ReplaysStick(env, View(), k - j);
          return false, if closed then ProcessClosed else if height >= |env.blocks| then NoBlockNamed else BodyMissing;
        }
        var contents := env.connect(cs.contents, env.blocks[height]);
        if contents.None? {
          ReplaysStick(env, View(), k - j);
          return false, BlockRefused;
        }
        ReplaysSplit(env, st, j, j + 1);
        ReplayOnce(env, View());
        historical := Some(Chainstate(Some(Tip(height, env.blocks[height].hash)), contents.value));
        j := j + 1;
      }
      return true, NoBlockNamed;
    }

    method RecoverPending() returns (r: Result<Option<Tip>, OpenError>)
      requires Valid() && running && (status.Validating? ==> historical.Some?)
      modifies `status, `saved, `undo, `staged, `bodies, `historical, `role, `closed, `phase
      ensures Valid()
      ensures r == RecoveryOutcome(env, old(View()))
      ensures View() == Recovered(env, old(View()))
    {
      if !status.Validating? || status.pending.None? {
        return Ok(None);
      }
      var pending := status.pending.value;
      if pending.height > status.baseHeight {
        return Err(Refused(IntentExceedsBase));
      }
      if Applied(historical.value) > pending.height {
        return Err(Refused(CheckpointAheadOfIntent));
      }
      ReplaysHold(env, View(), Backlog(View()));
      var complete, obstacle := ReplayBacklog(pending.height);
      if !complete {
        return Err(Refused(ReplayFailed(obstacle)));
      }
      var block: Block;
      if pending.height == 0 && pending.hash == env.blocks[0].hash {
        block := env.blocks[0];
      } else if pending in staged && staged[pending].hash == pending.hash {
        block := staged[pending];
      } else {
        return Err(Refused(MissingPendingBody));
      }
      var step := StepHistorical(block, NoFault);
      return if step.Err? then Err(StepFailed(step.error)) else Ok(Some(step.value));
    }

    method OpenHistoricalChainstate() returns (r: Result<Chainstate<S>, Refusal>)
      requires status.Validating?
      ensures r == Resumed(env, View().disk)
    {
      if status.checkpoint.None? {
        return Ok(Chainstate(None, env.empty));
      }
      var c := status.checkpoint.value;
      if c.tip.height > status.historical.height || c.tip.height > status.baseHeight {
        return Err(CheckpointAheadOfProgress);
      }
      if c.generation >= |saved| || saved[c.generation].None? {
        return Err(CheckpointNotPublished);
      }
      var restored := saved[c.generation].value;
      if restored.tip != c.tip {
        return Err(CheckpointReferenceMismatch);
      }
      if env.txCount(restored.contents) == 0 {
        return Err(CheckpointWithoutTransactionCount);
      }
      if c.tip.height >= |env.blocks| || env.blocks[c.tip.height].hash != c.tip.hash {
        return Err(CheckpointHashNotOnAncestry);
      }
      var progress := status.historical;
      if progress.height >= |env.blocks| || env.blocks[progress.height].hash != progress.hash {
        return Err(ProgressNotOnAncestry);
      }
      return Ok(Chainstate(Some(c.tip), restored.contents));
    }

    /** Starts the process on what the disk holds; it stays down when that is refused. */
    method RestoreAndRecover() returns (r: Result<Option<Tip>, OpenError>)
      requires Valid() && !running
      modifies this
      ensures Valid() && (running <==> r.Ok?)
      ensures Opened(env, old(View()).disk).Err? ==>
                r == Err(Refused(Opened(env, old(View()).disk).error)) && View() == old(View())
      ensures Opened(env, old(View()).disk).Ok? ==>
                && r == RecoveryOutcome(env, Restarted(env, old(View())))
                && View() == if r.Ok? then Recovered(env, Restarted(env, old(View())))
                             else Recovered(env, Restarted(env, old(View()))).(process := Down)
    {
      if status.Failed? {
        return Err(Refused(PreviouslyFailed));
      }
      if status.Validating? {
        var resumed := OpenHistoricalChainstate();
        if resumed.Err? {
          return Err(Refused(resumed.error));
        }
        historical, role := Some(resumed.value), AssumedActive;
      } else {
        historical, role := None, Ordinary;
      }
      running, closed := true, false;
      r := RecoverPending();
      if r.Err? {
        Die();
      }
    }

    /** On the node's own records only a failing pending step, or a lost count, can keep the process down. */
    method Open() returns (r: Result<Option<Tip>, OpenError>)
      requires Valid() && !running
      modifies this
      ensures Valid() && (running <==> r.Ok?)
      ensures Opened(env, old(View()).disk).Err? ==>
                r == Err(Refused(Opened(env, old(View()).disk).error)) && View() == old(View())
      ensures Opened(env, old(View()).disk).Ok? ==>
                && r == RecoveryOutcome(env, Restarted(env, old(View())))
                && View() == if r.Ok? then Recovered(env, Restarted(env, old(View())))
                             else Recovered(env, Restarted(env, old(View()))).(process := Down)
      ensures Inv(env, old(View())) && CheckpointCounted(env, old(View()).disk) && !old(status).Failed? && r.Err? ==>
                r.error.StepFailed?
      ensures Inv(env, old(View())) ==> Inv(env, View())
    {
      ghost var before := View();
      r := RestoreAndRecover();
      NotRefused(env, before.disk);
      OpeningKeeps(env, before);
    }
  }
}
