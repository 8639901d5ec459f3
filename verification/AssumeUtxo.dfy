/**
 Background validation of a pinned snapshot (assumeutxo.rs), cut into the pieces between which the
 process can stop: a piece changes either memory or, in one atomic commit, the durable record.
 */
module AssumeUtxo {
  import opened Wrappers
  import opened Bounded
  import opened Chain

  /** A block; `hash` stands for its block hash and `content` for its transactions. */
  datatype Block = Block(hash: Hash, prev: Hash, content: nat)

  /**
   What validation is measured against: the header path from genesis to the pinned base, how a block
   changes a chainstate's contents (no result when the block is invalid), and the pinned values.
   */
  datatype Env<!S> = Env(
    blocks: seq<Block>,
    empty: S,
    connect: (S, Block) -> Option<S>,
    commitment: S -> Hash,
    txCount: S -> u64,
    expected: Hash,
    chainTxCount: u64,
    interval: u32)
  {
    /** The base lies above genesis at a 32-bit height, and every block names the one before it. */
    predicate Ok() {
      && 2 <= |blocks| <= U32_MAX + 1
      && blocks[0].prev == 0
      && forall h: nat :: 0 < h < |blocks| ==> blocks[h].prev == blocks[h - 1].hash
    }

    function Base(): nat
      requires Ok()
    {
      |blocks| - 1
    }
  }

  datatype Tip = Tip(height: nat, hash: Hash)

  datatype CheckpointRef = CheckpointRef(generation: nat, tip: Tip)

  datatype DiskStatus =
    | Uninitialized
    | Validating(
        baseHeight: nat, baseHash: Hash, expected: Hash, chainTxCount: u64,
        historical: Tip, pending: Option<Tip>, checkpoint: Option<CheckpointRef>)
    | Finalized(baseHeight: nat, baseHash: Hash, validated: Hash)
    | Failed(baseHeight: nat, baseHash: Hash, expected: Hash, actual: Hash)

  /** A published checkpoint: the tip and the contents saved at it. */
  datatype Saved<S> = Saved(tip: Tip, contents: S)

  /**
   What survives a crash. A pending block's body is staged before it counts as stored, and a retired
   checkpoint generation leaves `None` behind.
   */
  datatype Disk<S> = Disk(
    status: DiskStatus,
    saved: seq<Option<Saved<S>>>,
    undo: set<Tip>,
    staged: map<Tip, Block>,
    bodies: set<Tip>)

  datatype Chainstate<S> = Chainstate(tip: Option<Tip>, contents: S)

  datatype Role = Ordinary | AssumedActive

  /** How far the step in progress has come. */
  datatype Phase =
    | Idle
    | Begun(block: Block, archived: bool)
    | Connected(archived: bool)
    | Published(checkpoint: CheckpointRef)

  datatype Process<S> = Down | Up(historical: Option<Chainstate<S>>, role: Role, closed: bool, phase: Phase)

  datatype State<S> = State(disk: Disk<S>, process: Process<S>)

  /** What the storage layer does to a connect: nothing, a retryable error, or a fatal one. */
  datatype Fault = NoFault | Retryable | Fatal

  datatype Event =
    | Install
    | Begin(block: Block)
    | Connect(fault: Fault)
    | Publish
    | Commit
    | Abort
    | Close
    | Crash
    | Restore
    | Replay
    | PruneUndo(row: Tip)
    | Retire(generation: nat)

  // ---- Reading the state ----

  /** How many blocks a chainstate has connected, which is the height of the next one. */
  function Applied<S>(cs: Chainstate<S>): nat {
    match cs.tip
    case None => 0
    case Some(tip) => tip.height + 1
  }

  function ExpectedPrev<S>(cs: Chainstate<S>): Hash {
    match cs.tip
    case None => 0
    case Some(tip) => tip.hash
  }

  /** A step is under way, or may start, on this chainstate. */
  predicate Has<S>(st: State<S>) { st.process.Up? && st.process.historical.Some? }

  function Cs<S>(st: State<S>): Chainstate<S>
    requires Has(st)
  {
    st.process.historical.value
  }

  /** The block at this height on the pinned ancestry has this hash. */
  predicate Pinned<S>(env: Env<S>, tip: Tip) {
    tip.height < |env.blocks| && env.blocks[tip.height].hash == tip.hash
  }

  predicate IsArchived<S>(env: Env<S>, disk: Disk<S>, tip: Tip)
    requires disk.status.Validating?
  {
    && tip.height < disk.status.baseHeight
    && tip.height <= disk.status.historical.height
    && Pinned(env, tip)
    && tip in disk.undo
  }

  predicate IsDue<S>(env: Env<S>, status: DiskStatus, height: nat)
    requires status.Validating?
  {
    var interval := Max(env.interval, 1);
    height >= match status.checkpoint
              case None => interval
              case Some(c) => Min(c.tip.height + interval, U32_MAX)
  }

  // ---- Pieces of a step ----

  function SetPhase<S>(st: State<S>, phase: Phase): State<S>
    requires st.process.Up?
  {
    st.(process := st.process.(phase := phase))
  }

  function ShutDown<S>(st: State<S>): State<S>
    requires st.process.Up?
  {
    st.(process := st.process.(closed := true, phase := Idle))
  }

  /** Validation has failed for good: the process closes and the record says so. */
  function Fail<S>(env: Env<S>, st: State<S>): State<S>
    requires Has(st)
  {
    var s := ShutDown(st);
    match st.disk.status
    case Validating(height, hash, expected, _, _, _, _) =>
      s.(disk := s.disk.(status := Failed(height, hash, expected, env.commitment(Cs(st).contents))))
    case _ => s
  }

  function Started<S>(env: Env<S>, st: State<S>, b: Block): State<S> {
    if !Has(st) || st.process.phase != Idle || b.prev != ExpectedPrev(Cs(st)) then st
    else if st.process.closed || !st.disk.status.Validating? then ShutDown(st)
    else
      var tip := Tip(Applied(Cs(st)), b.hash);
      if IsArchived(env, st.disk, tip) then SetPhase(st, Begun(b, true))
      else if st.disk.status.pending == Some(tip) then SetPhase(st, Begun(b, false))
      else
        var disk := st.disk.(status := st.disk.status.(pending := Some(tip)), staged := st.disk.staged[tip := b]);
        SetPhase(st.(disk := disk), Begun(b, false))
  }

  /** Connecting the begun block, when storage does not fail. */
  function Extended<S>(env: Env<S>, st: State<S>): State<S>
    requires Has(st) && st.process.phase.Begun?
  {
    var b, cs := st.process.phase.block, Cs(st);
    var h := Applied(cs);
    if st.process.closed || h >= |env.blocks| then SetPhase(st, Idle)
    else if h == |env.blocks| - 1 && b.hash != env.blocks[h].hash then Fail(env, st)
    else
      match env.connect(cs.contents, b)
      case None => Fail(env, st)
      case Some(contents) =>
        st.(process := st.process.(historical := Some(Chainstate(Some(Tip(h, b.hash)), contents)),
                                   phase := Connected(st.process.phase.archived)))
  }

  function Joined<S>(env: Env<S>, st: State<S>, fault: Fault): State<S> {
    if !Has(st) || !st.process.phase.Begun? then st
    else
      match fault
      case NoFault => Extended(env, st)
      case Retryable => SetPhase(st, Idle)
      case Fatal => Fail(env, st)
  }

  /** A connected block below the base is about to be recorded. */
  predicate Recording<S>(st: State<S>) {
    && Has(st) && Cs(st).tip.Some?
    && st.process.phase == Connected(false)
    && st.disk.status.Validating?
    && Cs(st).tip.value.height < st.disk.status.baseHeight
  }

  /** The due checkpoint is written; no record names it yet. */
  function Saving<S>(env: Env<S>, st: State<S>): State<S> {
    if !Recording(st) || !IsDue(env, st.disk.status, Cs(st).tip.value.height) then st
    else
      var tip := Cs(st).tip.value;
      SetPhase(st.(disk := st.disk.(saved := st.disk.saved + [Some(Saved(tip, Cs(st).contents))])),
               Published(CheckpointRef(|st.disk.saved|, tip)))
  }

  /** One commit moves the record to `status` and adds the connected block's undo and body rows. */
  function Write<S>(st: State<S>, status: DiskStatus, tip: Tip): State<S>
    requires st.process.Up?
  {
    SetPhase(st.(disk := st.disk.(status := status, undo := st.disk.undo + {tip}, bodies := st.disk.bodies + {tip})),
             Idle)
  }

  function Progress(status: DiskStatus, tip: Tip, checkpoint: Option<CheckpointRef>): DiskStatus
    requires status.Validating?
  {
    status.(historical := tip, pending := None, checkpoint := checkpoint)
  }

  /** The base is connected: compare it with what was pinned. */
  function Judged<S>(env: Env<S>, st: State<S>): State<S>
    requires Has(st) && Cs(st).tip.Some? && st.disk.status.Validating?
  {
    var status, cs := st.disk.status, Cs(st);
    var tip, actual := cs.tip.value, env.commitment(cs.contents);
    if tip.hash != status.baseHash || env.txCount(cs.contents) != status.chainTxCount || actual != status.expected
    then Fail(env, st)
    else
      var s := Write(st, Finalized(status.baseHeight, status.baseHash, actual), tip);
      s.(process := s.process.(historical := None, role := Ordinary))
  }

  function Recorded<S>(env: Env<S>, st: State<S>): State<S> {
    if !Has(st) || Cs(st).tip.None? then st
    else
      var status, tip := st.disk.status, Cs(st).tip.value;
      match st.process.phase
      case Published(c) =>
        if status.Validating? then Write(st, Progress(status, tip, Some(c)), tip) else SetPhase(st, Idle)
      case Connected(archived) =>
        if archived || !status.Validating? || tip.height > status.baseHeight then SetPhase(st, Idle)
        else if tip.height == status.baseHeight then Judged(env, st)
        else if IsDue(env, status, tip.height) then st
        else Write(st, Progress(status, tip, status.checkpoint), tip)
      case _ => st
  }

  /** One whole step, as the pieces it is made of. */
  function StepEvents(b: Block, fault: Fault): seq<Event> { [Begin(b), Connect(fault), Publish, Commit] }

  // ---- Opening ----

  /** What stops recovery from reconnecting a block below the pending one. */
  datatype ReplayObstacle = ProcessClosed | NoBlockNamed | BodyMissing | BlockRefused

  datatype Refusal =
    | PreviouslyFailed
    | CheckpointAheadOfProgress
    | CheckpointNotPublished
    | CheckpointReferenceMismatch
    | CheckpointWithoutTransactionCount
    | CheckpointHashNotOnAncestry
    | ProgressNotOnAncestry
    | IntentExceedsBase
    | CheckpointAheadOfIntent
    | MissingPendingBody
    | ReplayFailed(obstacle: ReplayObstacle)

  /** The chainstate a Validating record is resumed from, or why it is refused. */
  function Resumed<S>(env: Env<S>, disk: Disk<S>): Result<Chainstate<S>, Refusal>
    requires disk.status.Validating?
  {
    var status := disk.status;
    match status.checkpoint
    case None => Ok(Chainstate(None, env.empty))
    case Some(c) =>
      if c.tip.height > status.historical.height || c.tip.height > status.baseHeight then Err(CheckpointAheadOfProgress)
      else if c.generation >= |disk.saved| || disk.saved[c.generation].None? then Err(CheckpointNotPublished)
      else
        var saved := disk.saved[c.generation].value;
        if saved.tip != c.tip then Err(CheckpointReferenceMismatch)
        else if env.txCount(saved.contents) == 0 then Err(CheckpointWithoutTransactionCount)
        else if !Pinned(env, c.tip) then Err(CheckpointHashNotOnAncestry)
        else if !Pinned(env, status.historical) then Err(ProgressNotOnAncestry)
        else Ok(Chainstate(Some(c.tip), saved.contents))
  }

  /** What a process that starts on this disk holds, or why it does not start. */
  function Opened<S>(env: Env<S>, disk: Disk<S>): Result<Process<S>, Refusal> {
    match disk.status
    case Failed(_, _, _, _) => Err(PreviouslyFailed)
    case Validating(_, _, _, _, _, _, _) =>
      (match Resumed(env, disk)
       case Err(refusal) => Err(refusal)
       case Ok(cs) => Ok(Up(Some(cs), AssumedActive, false, Idle)))
    case _ => Ok(Up(None, Ordinary, false, Idle))
  }

  /** A pending block waits and the next block lies below it, so recovery reconnects that one. */
  predicate Replaying<S>(env: Env<S>, st: State<S>) {
    && Has(st) && !st.process.closed && st.process.phase == Idle
    && st.disk.status.Validating? && st.disk.status.pending.Some?
    && Applied(Cs(st)) < st.disk.status.pending.value.height
    && Applied(Cs(st)) < |env.blocks|
  }

  /** The stored body is there; genesis needs none. */
  predicate BodyStored<S>(env: Env<S>, bodies: set<Tip>, h: nat)
    requires h < |env.blocks|
  {
    h == 0 || Tip(h, env.blocks[h].hash) in bodies
  }

  function Replayed<S>(env: Env<S>, st: State<S>): State<S> {
    if !Replaying(env, st) || !BodyStored(env, st.disk.bodies, Applied(Cs(st))) then st
    else
      var h := Applied(Cs(st));
      match env.connect(Cs(st).contents, env.blocks[h])
      case None => st
      case Some(contents) =>
        st.(process := st.process.(historical := Some(Chainstate(Some(Tip(h, env.blocks[h].hash)), contents))))
  }

  function FirstRecord<S>(env: Env<S>): DiskStatus
    requires env.Ok()
  {
    Validating(env.Base(), env.blocks[env.Base()].hash, env.expected, env.chainTxCount,
               Tip(0, env.blocks[0].hash), None, None)
  }

  /** A verified snapshot becomes the active chainstate; validation of its history begins. */
  function Installed<S>(env: Env<S>, st: State<S>): State<S>
    requires env.Ok()
  {
    if st.process == Up(None, Ordinary, false, Idle) && st.disk.status.Uninitialized? then
      State(st.disk.(status := FirstRecord(env)),
            Up(Some(Chainstate(None, env.empty)), AssumedActive, false, Idle))
    else st
  }

  function Restarted<S>(env: Env<S>, st: State<S>): State<S> {
    match Opened(env, st.disk)
    case Ok(process) => if st.process.Down? then st.(process := process) else st
    case Err(_) => st
  }

  /** The record refers to this checkpoint generation, or the step in progress is about to. */
  predicate Referenced<S>(st: State<S>, g: nat) {
    var status := st.disk.status;
    || (status.Validating? && status.checkpoint.Some? && status.checkpoint.value.generation == g)
    || (st.process.Up? && st.process.phase.Published? && st.process.phase.checkpoint.generation == g)
  }

  function Retired<S>(st: State<S>, g: nat): State<S> {
    if g < |st.disk.saved| && !Referenced(st, g)
    then st.(disk := st.disk.(saved := st.disk.saved[g := None]))
    else st
  }

  /** Pruning is refused unless the active chainstate is an ordinary one. */
  function Pruned<S>(st: State<S>, row: Tip): State<S> {
    if st.process.Up? && !st.process.closed && st.process.role == Ordinary
    then st.(disk := st.disk.(undo := st.disk.undo - {row}))
    else st
  }

  // ---- Runs ----

  function Do<S>(env: Env<S>, st: State<S>, e: Event): State<S>
    requires env.Ok()
  {
    match e
    case Install => Installed(env, st)
    case Begin(b) => Started(env, st, b)
    case Connect(fault) => Joined(env, st, fault)
    case Publish => Saving(env, st)
    case Commit => Recorded(env, st)
    case Abort => if st.process.Up? then ShutDown(st) else st
    case Close => if st.process.Up? then st.(process := st.process.(closed := true)) else st
    case Crash => st.(process := Down)
    case Restore => Restarted(env, st)
    case Replay => Replayed(env, st)
    case PruneUndo(row) => Pruned(st, row)
    case Retire(g) => Retired(st, g)
  }

  function Run<S>(env: Env<S>, st: State<S>, es: seq<Event>): State<S>
    requires env.Ok()
    decreases |es|
  {
    if es == [] then st else Run(env, Do(env, st, es[0]), es[1..])
  }

  /** A node that has never seen a snapshot. */
  function Blank<S>(): State<S> { State(Disk(Uninitialized, [], {}, map[], {}), Down) }
}
